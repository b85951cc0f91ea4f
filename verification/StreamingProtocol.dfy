/**
 The streaming reply sink under concurrency: submitting calls, timer callbacks (also those of timers that
 were already disposed), dispatch loops, dispatch outcomes, cancellation and disposal, in any interleaving.

 A step is one critical section of the sink or one event outside it. A run is a sequence of steps.
 */
module StreamingProtocol {
  import opened Text
  import opened StreamingSink

  /** Where a dispatch loop is: waiting for the actor, or about to look for pending text. */
  datatype Phase =
    | Sending                    // the chunk has not reached the actor
    | Delivered(acked: bool)     // it has; acked tells whether the dispatch call will report success
    | Settled                    // the outcome of the dispatch has been recorded

  /** serial is the position of the text in the submission order. */
  datatype Loop = Loop(id: nat, text: string, serial: nat, phase: Phase, cancellable: bool)

  datatype Chunk = Chunk(text: string, serial: nat, acked: bool)

  datatype Attempt = Attempt(serial: nat, acked: bool)

  datatype System = System(
    sink: Sink,
    loops: seq<Loop>,            // every dispatch loop that has not left its loop
    unfired: set<nat>,           // timers whose callback may still run, disposed or not
    pendingSerial: nat,
    emittedSerial: nat,
    lastAttempt: Option<Attempt>,
    submitted: seq<string>,      // non-blank texts, in the order in which they took the lock
    log: seq<Chunk>,             // what reached the actor
    nextId: nat,
    releasing: set<nat>,         // drain signals taken out of the sink, about to be completed
    completed: set<nat>,
    awaited: set<nat>)           // drain signals that some finalizing call waits for

  datatype Action =
    | Flush(text: string, isFinal: bool, now: Time, cancellable: bool)
    | Fire(timer: nat)
    | Deliver(loop: nat, acked: bool)
    | Record(loop: nat, now: Time)
    | Swallow(loop: nat)         // the dispatch failed, or its acknowledgement was lost; logged and dropped
    | Cancel(loop: nat)
    | Poll(loop: nat)
    | Release(signal: nat)
    | DisposeSink

  function Initial(throttle: int): System {
    System(NewSink(throttle), [], {}, 0, 0, None, [], [], 0, {}, {}, {})
  }

  predicate Enabled(s: System, a: Action) {
    match a
    case Flush(text, _, _, _) => !IsBlank(text)
    case Fire(timer) => timer in s.unfired
    case Deliver(l, _) => l < |s.loops| && s.loops[l].phase == Sending
    case Record(l, _) => l < |s.loops| && s.loops[l].phase == Delivered(true)
    case Swallow(l) => l < |s.loops| && s.loops[l].phase in {Sending, Delivered(false)}
    case Cancel(l) => l < |s.loops| && s.loops[l].cancellable && s.loops[l].phase in {Sending, Delivered(false)}
    case Poll(l) => l < |s.loops| && s.loops[l].phase == Settled
    case Release(signal) => signal in s.releasing
    case DisposeSink => true
  }

  function WithoutLoop(s: System, l: nat): System
    requires l < |s.loops|
  {
    s.(loops := s.loops[..l] + s.loops[l + 1..])
  }

  function ReleaseSignal(s: System, signal: Option<nat>): System {
    if signal.Some? then s.(releasing := s.releasing + {signal.value}) else s
  }

  function StepFlush(s: System, text: string, isFinal: bool, now: Time, cancellable: bool): System {
    var serial := |s.submitted|;
    var (sink, decision) := FlushBlock(s.sink, text, isFinal, now, s.nextId, s.nextId + 1);
    var s := s.(
      sink := sink,
      submitted := s.submitted + [text],
      pendingSerial := if sink.hasPending then serial else s.pendingSerial,
      unfired := if sink.timer.Some? then s.unfired + {sink.timer.value.id} else s.unfired,
      nextId := s.nextId + 3);
    match decision
    case Return => s
    case AwaitDrain(signal) => s.(awaited := s.awaited + {signal})
    case StartLoop(text) => s.(loops := s.loops + [Loop(s.nextId - 1, text, serial, Sending, cancellable)])
  }

  function StepFire(s: System, timer: nat): System {
    var (sink, toDispatch) := TimerBlock(s.sink);
    var t := s.(sink := sink, unfired := s.unfired - {timer}, nextId := s.nextId + 1);
    if toDispatch.None? then t
    else t.(loops := t.loops + [Loop(s.nextId, toDispatch.value, s.pendingSerial, Sending, false)])
  }

  function StepPoll(s: System, l: nat): System
    requires l < |s.loops|
  {
    var (sink, decision) := PollBlock(s.sink);
    var t := s.(sink := sink);
    match decision
    case Exit(signal) => ReleaseSignal(WithoutLoop(t, l), signal)
    case Next(text) =>
      t.(loops := t.loops[l := t.loops[l].(text := text, serial := s.pendingSerial, phase := Sending)])
  }

  function Step(s: System, a: Action): System
    requires Enabled(s, a)
  {
    match a
    case Flush(text, isFinal, now, cancellable) => StepFlush(s, text, isFinal, now, cancellable)
    case Fire(timer) => StepFire(s, timer)
    case Deliver(l, acked) =>
      var loop := s.loops[l];
      s.(log := s.log + [Chunk(loop.text, loop.serial, acked)],
         loops := s.loops[l := loop.(phase := Delivered(acked))])
    case Record(l, now) =>
      var loop := s.loops[l];
      s.(sink := RecordBlock(s.sink, loop.text, now),
         emittedSerial := loop.serial,
         lastAttempt := Some(Attempt(loop.serial, true)),
         loops := s.loops[l := loop.(phase := Settled)])
    case Swallow(l) =>
      var loop := s.loops[l];
      s.(lastAttempt := Some(Attempt(loop.serial, false)),
         loops := s.loops[l := loop.(phase := Settled)])
    case Cancel(l) =>
      var (sink, signal) := AbortBlock(s.sink);
      ReleaseSignal(WithoutLoop(s.(sink := sink), l), signal)
    case Poll(l) => StepPoll(s, l)
    case Release(signal) =>
      s.(releasing := s.releasing - {signal}, completed := s.completed + {signal})
    case DisposeSink =>
      var (sink, signal) := DisposeBlock(s.sink);
      ReleaseSignal(s.(sink := sink), signal)
  }

  predicate Run(s: System, run: seq<Action>)
    decreases |run|
  {
    run == [] || (Enabled(s, run[0]) && Run(Step(s, run[0]), run[1..]))
  }

  function After(s: System, run: seq<Action>): System
    requires Run(s, run)
    decreases |run|
  {
    if run == [] then s else After(Step(s, run[0]), run[1..])
  }

  // ---- What every reachable state satisfies ----

  /** At most one loop, and the in-progress flag holds exactly while it runs. */
  ghost predicate SingleLoop(s: System) {
    |s.loops| == if s.sink.dispatching then 1 else 0
  }

  /** An armed timer can still fire, is due when the throttle window closes, and never coexists with a loop. */
  ghost predicate TimerInv(s: System) {
    && (s.sink.timer.Some? ==>
          && !s.sink.dispatching
          && s.sink.timer.value.id in s.unfired
          && s.sink.timer.value.due == s.sink.lastEmitAt + s.sink.throttle)
    && (forall t :: t in s.unfired ==> t < s.nextId)
  }

  ghost predicate DisposedInv(s: System) {
    s.sink.disposed ==> !s.sink.hasPending && s.sink.timer.None? && s.sink.drain.None?
  }

  /** A drain signal exists only while a loop runs, and nobody waits for a signal that nothing will complete. */
  ghost predicate DrainInv(s: System) {
    && (s.sink.drain.Some? ==> s.sink.dispatching && !s.sink.disposed)
    && (forall w :: w in s.awaited ==>
          w in s.completed || w in s.releasing || s.sink.drain == Some(w))
    && (s.sink.drain.Some? ==> s.sink.drain.value < s.nextId)
    && (forall w :: w in s.completed ==> w < s.nextId && s.sink.drain != Some(w))
    && (forall w :: w in s.releasing ==> w < s.nextId && s.sink.drain != Some(w))
  }

  ghost predicate TextAt(s: System, serial: nat, text: string) {
    serial < |s.submitted| && s.submitted[serial] == text
  }

  ghost predicate PendingInv(s: System) {
    if s.sink.hasPending
    then TextAt(s, s.pendingSerial, s.sink.pending)
    else s.sink.pending == ""
  }

  ghost predicate SubmittedInv(s: System) {
    forall i :: 0 <= i < |s.submitted| ==> s.submitted[i] != ""
  }

  /** The running loop; `SingleLoop` says that there is no other. */
  function Current(s: System): Option<Loop> {
    if s.loops == [] then None else Some(s.loops[0])
  }

  ghost predicate LoopInv(s: System) {
    Current(s).Some? ==>
      var loop := Current(s).value;
      && TextAt(s, loop.serial, loop.text)
      && (loop.phase != Settled ==> loop.text != s.sink.lastEmitted)
      && (s.sink.hasPending ==> loop.serial < s.pendingSerial)
      && loop.id < s.nextId
  }

  /** The log is an in-order subsequence of the submitted texts: the serials are its embedding. */
  ghost predicate LogInOrder(s: System) {
    && (forall i :: 0 <= i < |s.log| ==> TextAt(s, s.log[i].serial, s.log[i].text))
    && (forall i, j :: 0 <= i < j < |s.log| ==> s.log[i].serial < s.log[j].serial)
  }

  /** What is pending or in flight is newer than the newest chunk. */
  ghost predicate LogFrontier(s: System) {
    && (InFlight(s, Delivered(true)) || InFlight(s, Delivered(false)) ==>
          var loop := Current(s).value;
          s.log != [] && s.log[|s.log| - 1] == Chunk(loop.text, loop.serial, loop.phase.acked))
    && (s.log != [] ==>
          var last := s.log[|s.log| - 1].serial;
          && (s.sink.hasPending ==> last < s.pendingSerial)
          && (InFlight(s, Sending) ==> last < Current(s).value.serial)
          && (InFlight(s, Settled) ==> last <= Current(s).value.serial))
  }

  predicate InFlight(s: System, phase: Phase) {
    Current(s).Some? && Current(s).value.phase == phase
  }

  /** The sink remembers the newest chunk, unless its acknowledgement is still to be recorded or was lost. */
  ghost predicate EmittedInv(s: System) {
    s.log != [] && s.log[|s.log| - 1].acked && !InFlight(s, Delivered(true)) ==>
      s.sink.lastEmitted == s.log[|s.log| - 1].text
  }

  /** Two equal chunks never follow each other, except after a chunk whose acknowledgement was lost. */
  ghost predicate NoEcho(s: System) {
    forall i :: 0 < i < |s.log| && s.log[i - 1].acked ==> s.log[i - 1].text != s.log[i].text
  }

  function AckedCount(log: seq<Chunk>): nat {
    if log == [] then 0 else AckedCount(log[..|log| - 1]) + if log[|log| - 1].acked then 1 else 0
  }

  /** The chunk counter counts the acknowledged chunks, up to the one whose recording is under way. */
  ghost predicate CountInv(s: System) {
    AckedCount(s.log) == s.sink.chunksEmitted + if InFlight(s, Delivered(true)) then 1 else 0
  }

  ghost predicate Inv(s: System) {
    && SingleLoop(s) && TimerInv(s) && DisposedInv(s) && DrainInv(s)
    && PendingInv(s) && SubmittedInv(s) && LoopInv(s)
    && LogInOrder(s) && LogFrontier(s) && EmittedInv(s) && NoEcho(s) && CountInv(s)
  }

  lemma InitialInv(throttle: int)
    ensures Inv(Initial(throttle))
  {
  }

  ghost predicate ControlInv(s: System) {
    SingleLoop(s) && TimerInv(s) && DisposedInv(s) && DrainInv(s)
  }

  lemma FlushKeepsControl(s: System, text: string, isFinal: bool, now: Time, cancellable: bool)
    requires ControlInv(s)
    ensures ControlInv(StepFlush(s, text, isFinal, now, cancellable))
  {
  }

  lemma FireKeepsControl(s: System, timer: nat)
    requires ControlInv(s) && timer in s.unfired
    ensures ControlInv(StepFire(s, timer))
  {
  }

  lemma PollKeepsControl(s: System, l: nat)
    requires ControlInv(s) && l < |s.loops|
    ensures ControlInv(StepPoll(s, l))
  {
  }

  lemma CancelKeepsControl(s: System, l: nat)
    requires ControlInv(s) && Enabled(s, Cancel(l))
    ensures ControlInv(Step(s, Cancel(l)))
  {
  }

  lemma StepKeepsControl(s: System, a: Action)
    requires ControlInv(s) && Enabled(s, a)
    ensures ControlInv(Step(s, a))
  {
    match a
    case Flush(text, isFinal, now, cancellable) => FlushKeepsControl(s, text, isFinal, now, cancellable);
    case Fire(timer) => FireKeepsControl(s, timer);
    case Poll(l) => PollKeepsControl(s, l);
    case Cancel(l) => CancelKeepsControl(s, l);
    case Deliver(_, _) =>
    case Record(_, _) =>
    case Swallow(_) =>
    case Release(_) =>
    case DisposeSink =>
  }

  lemma FlushKeepsPending(s: System, text: string, isFinal: bool, now: Time, cancellable: bool)
    requires DisposedInv(s) && PendingInv(s) && SubmittedInv(s) && !IsBlank(text)
    ensures PendingInv(StepFlush(s, text, isFinal, now, cancellable)) && SubmittedInv(StepFlush(s, text, isFinal, now, cancellable))
  {
  }

  lemma StepKeepsPending(s: System, a: Action)
    requires DisposedInv(s) && PendingInv(s) && SubmittedInv(s) && Enabled(s, a)
    ensures PendingInv(Step(s, a)) && SubmittedInv(Step(s, a))
  {
    if a.Flush? {
      FlushKeepsPending(s, a.text, a.isFinal, a.now, a.cancellable);
    }
  }

  lemma FlushKeepsLoop(s: System, text: string, isFinal: bool, now: Time, cancellable: bool)
    requires SingleLoop(s) && DisposedInv(s) && LoopInv(s)
    ensures LoopInv(StepFlush(s, text, isFinal, now, cancellable))
  {
  }

  lemma FireKeepsLoop(s: System, timer: nat)
    requires SingleLoop(s) && DisposedInv(s) && PendingInv(s) && LoopInv(s)
    ensures LoopInv(StepFire(s, timer))
  {
  }

  lemma PollKeepsLoop(s: System, l: nat)
    requires SingleLoop(s) && DisposedInv(s) && PendingInv(s) && LoopInv(s) && l < |s.loops|
    ensures LoopInv(StepPoll(s, l))
  {
  }

  lemma StepKeepsLoop(s: System, a: Action)
    requires SingleLoop(s) && DisposedInv(s) && PendingInv(s) && LoopInv(s) && Enabled(s, a)
    ensures LoopInv(Step(s, a))
  {
    match a
    case Flush(text, isFinal, now, cancellable) => FlushKeepsLoop(s, text, isFinal, now, cancellable);
    case Fire(timer) => FireKeepsLoop(s, timer);
    case Poll(l) => PollKeepsLoop(s, l);
    case Deliver(_, _) =>
    case Record(_, _) =>
    case Swallow(_) =>
    case Cancel(_) =>
    case Release(_) =>
    case DisposeSink =>
  }

  /** Texts that were submitted stay where they are. */
  lemma MoreTexts(s: System, t: System)
    requires LogInOrder(s) && t.log == s.log && s.submitted <= t.submitted
    ensures LogInOrder(t)
  {
  }

  lemma SubmittedStays(s: System, a: Action)
    requires Enabled(s, a)
    ensures Step(s, a).submitted == s.submitted + if a.Flush? then [a.text] else []
    ensures !a.Deliver? ==> Step(s, a).log == s.log
  {
  }

  lemma DeliverKeepsOrder(s: System, l: nat, acked: bool)
    requires SingleLoop(s) && LoopInv(s) && LogInOrder(s) && LogFrontier(s) && Enabled(s, Deliver(l, acked))
    ensures LogInOrder(Step(s, Deliver(l, acked)))
  {
    var t := Step(s, Deliver(l, acked));
    forall i | 0 <= i < |t.log|
      ensures TextAt(t, t.log[i].serial, t.log[i].text)
      ensures i < |s.log| ==> t.log[i].serial < s.loops[l].serial
    {
      if i < |s.log| {
        assert t.log[i] == s.log[i];
        assert s.log[i].serial <= s.log[|s.log| - 1].serial;
      }
    }
  }

  lemma StepKeepsOrder(s: System, a: Action)
    requires SingleLoop(s) && LoopInv(s) && LogInOrder(s) && LogFrontier(s) && Enabled(s, a)
    ensures LogInOrder(Step(s, a))
  {
    if a.Deliver? {
      DeliverKeepsOrder(s, a.loop, a.acked);
    } else {
      SubmittedStays(s, a);
      MoreTexts(s, Step(s, a));
    }
  }

  lemma LastIsSubmitted(s: System)
    requires LogInOrder(s) && s.log != []
    ensures s.log[|s.log| - 1].serial < |s.submitted|
  {
    assert TextAt(s, s.log[|s.log| - 1].serial, s.log[|s.log| - 1].text);
  }

  lemma FlushKeepsFrontier(s: System, text: string, isFinal: bool, now: Time, cancellable: bool)
    requires SingleLoop(s) && LogInOrder(s) && LogFrontier(s)
    ensures LogFrontier(StepFlush(s, text, isFinal, now, cancellable))
  {
    if s.log != [] {
      LastIsSubmitted(s);
    }
  }

  lemma FireKeepsFrontier(s: System, timer: nat)
    requires SingleLoop(s) && LogFrontier(s) && timer in s.unfired
    ensures LogFrontier(StepFire(s, timer))
  {
  }

  lemma PollKeepsFrontier(s: System, l: nat)
    requires SingleLoop(s) && LogFrontier(s) && Enabled(s, Poll(l))
    ensures LogFrontier(StepPoll(s, l))
  {
  }

  lemma DispatchKeepsFrontier(s: System, a: Action)
    requires SingleLoop(s) && LoopInv(s) && LogFrontier(s) && Enabled(s, a) && (a.Deliver? || a.Record? || a.Swallow?)
    ensures LogFrontier(Step(s, a))
  {
  }

  lemma LeavingKeepsFrontier(s: System, a: Action)
    requires SingleLoop(s) && LogFrontier(s) && Enabled(s, a) && (a.Cancel? || a.Release? || a.DisposeSink?)
    ensures LogFrontier(Step(s, a))
  {
  }

  lemma StepKeepsFrontier(s: System, a: Action)
    requires SingleLoop(s) && LoopInv(s) && LogInOrder(s) && LogFrontier(s) && Enabled(s, a)
    ensures LogFrontier(Step(s, a))
  {
    match a
    case Flush(text, isFinal, now, cancellable) => FlushKeepsFrontier(s, text, isFinal, now, cancellable);
    case Fire(timer) => FireKeepsFrontier(s, timer);
    case Poll(l) => PollKeepsFrontier(s, l);
    case Deliver(_, _) => DispatchKeepsFrontier(s, a);
    case Record(_, _) => DispatchKeepsFrontier(s, a);
    case Swallow(_) => DispatchKeepsFrontier(s, a);
    case Cancel(_) => LeavingKeepsFrontier(s, a);
    case Release(_) => LeavingKeepsFrontier(s, a);
    case DisposeSink => LeavingKeepsFrontier(s, a);
  }

  /** The new chunk differs from an acknowledged one before it, which the sink remembers. */
  lemma DeliverKeepsNoEcho(s: System, l: nat, acked: bool)
    requires SingleLoop(s) && LoopInv(s) && EmittedInv(s) && NoEcho(s) && Enabled(s, Deliver(l, acked))
    ensures NoEcho(Step(s, Deliver(l, acked)))
  {
    var t := Step(s, Deliver(l, acked));
    forall i | 0 < i < |t.log| && t.log[i - 1].acked
      ensures t.log[i - 1].text != t.log[i].text
    {
      assert t.log[i - 1] == s.log[i - 1];
      if i < |s.log| {
        assert t.log[i] == s.log[i];
      }
    }
  }

  lemma StepKeepsNoEcho(s: System, a: Action)
    requires SingleLoop(s) && LoopInv(s) && EmittedInv(s) && NoEcho(s) && Enabled(s, a)
    ensures NoEcho(Step(s, a))
  {
    if a.Deliver? {
      DeliverKeepsNoEcho(s, a.loop, a.acked);
    } else {
      SubmittedStays(s, a);
    }
  }

  /** Only recording changes the emitted text, and only delivering and recording touch a delivered chunk. */
  lemma OthersKeepEmitted(s: System, a: Action)
    requires SingleLoop(s) && Enabled(s, a) && !a.Deliver? && !a.Record? && !a.Swallow? && !a.Cancel?
    ensures var t := Step(s, a);
      && t.log == s.log && t.sink.lastEmitted == s.sink.lastEmitted && t.sink.chunksEmitted == s.sink.chunksEmitted
      && (InFlight(t, Delivered(true)) <==> InFlight(s, Delivered(true)))
  {
    match a
    case Flush(_, _, _, _) =>
    case Fire(_) =>
    case Poll(_) =>
    case Release(_) =>
    case DisposeSink =>
  }

  lemma StepKeepsEmitted(s: System, a: Action)
    requires SingleLoop(s) && LoopInv(s) && LogFrontier(s) && EmittedInv(s) && Enabled(s, a)
    ensures EmittedInv(Step(s, a))
  {
    match a
    case Deliver(_, _) =>
    case Record(_, _) =>
    case Swallow(_) =>
    case Cancel(_) =>
    case _ => OthersKeepEmitted(s, a);
  }

  lemma AckedCountAppend(log: seq<Chunk>, chunk: Chunk)
    ensures AckedCount(log + [chunk]) == AckedCount(log) + if chunk.acked then 1 else 0
  {
    assert (log + [chunk])[..|log|] == log;
  }

  lemma DeliverKeepsCount(s: System, l: nat, acked: bool)
    requires SingleLoop(s) && CountInv(s) && Enabled(s, Deliver(l, acked))
    ensures CountInv(Step(s, Deliver(l, acked)))
  {
    AckedCountAppend(s.log, Chunk(s.loops[l].text, s.loops[l].serial, acked));
  }

  lemma SettleKeepsCount(s: System, a: Action)
    requires SingleLoop(s) && CountInv(s) && Enabled(s, a) && (a.Record? || a.Swallow? || a.Cancel?)
    ensures CountInv(Step(s, a))
  {
  }

  lemma StepKeepsCount(s: System, a: Action)
    requires SingleLoop(s) && CountInv(s) && Enabled(s, a)
    ensures CountInv(Step(s, a))
  {
    if a.Deliver? {
      DeliverKeepsCount(s, a.loop, a.acked);
    } else if a.Record? || a.Swallow? || a.Cancel? {
      SettleKeepsCount(s, a);
    } else {
      OthersKeepEmitted(s, a);
    }
  }

  lemma StepKeepsInv(s: System, a: Action)
    requires Inv(s) && Enabled(s, a)
    ensures Inv(Step(s, a))
  {
    StepKeepsControl(s, a);
    StepKeepsPending(s, a);
    StepKeepsLoop(s, a);
    StepKeepsOrder(s, a);
    StepKeepsFrontier(s, a);
    StepKeepsEmitted(s, a);
    StepKeepsNoEcho(s, a);
    StepKeepsCount(s, a);
  }

  lemma {:induction false} RunKeepsInv(s: System, run: seq<Action>)
    requires Inv(s) && Run(s, run)
    ensures Inv(After(s, run))
    decreases |run|
  {
    if run != [] {
      StepKeepsInv(s, run[0]);
      RunKeepsInv(Step(s, run[0]), run[1..]);
    }
  }

  // ---- What one submission does ----

  /** A text that reached the actor, and when its acknowledgement was recorded. */
  datatype Emission = Emission(text: string, at: Time)

  /** The last acknowledgement that a run records, or the one before the run. */
  function LastRecord(s: System, run: seq<Action>, before: Emission): Emission
    requires Run(s, run)
    decreases |run|
  {
    if run == [] then before
    else
      var a := run[0];
      LastRecord(Step(s, a), run[1..], if a.Record? then Emission(s.loops[a.loop].text, a.now) else before)
  }

  lemma StepRecords(s: System, a: Action)
    requires Enabled(s, a)
    ensures var t := Step(s, a);
      && t.sink.throttle == s.sink.throttle
      && (t.sink.disposed <==> s.sink.disposed || a.DisposeSink?)
      && t.sink.lastEmitted == (if a.Record? then s.loops[a.loop].text else s.sink.lastEmitted)
      && t.sink.lastEmitAt == (if a.Record? then a.now else s.sink.lastEmitAt)
  {
    match a
    case Flush(_, _, _, _) =>
    case Fire(_) =>
    case Poll(_) =>
    case Deliver(_, _) =>
    case Record(_, _) =>
    case Swallow(_) =>
    case Cancel(_) =>
    case Release(_) =>
    case DisposeSink =>
  }

  lemma {:induction false} RunRecords(s: System, run: seq<Action>)
    requires Run(s, run)
    ensures var t := After(s, run);
      && t.sink.throttle == s.sink.throttle
      && (t.sink.disposed <==> s.sink.disposed || DisposeSink in run)
      && Emission(t.sink.lastEmitted, t.sink.lastEmitAt)
         == LastRecord(s, run, Emission(s.sink.lastEmitted, s.sink.lastEmitAt))
    decreases |run|
  {
    if run != [] {
      StepRecords(s, run[0]);
      RunRecords(Step(s, run[0]), run[1..]);
      assert DisposeSink in run <==> run[0] == DisposeSink || DisposeSink in run[1..];
    }
  }

  /** A dispatch loop was started with this text, and nothing is left pending. */
  predicate Starts(s: System, t: System, text: string) {
    && s.loops == [] && |t.loops| == 1 && t.loops[0].text == text && t.loops[0].phase == Sending
    && t.loops[0].serial == |s.submitted| && !t.sink.hasPending && t.sink.timer.None?
  }

  /** The text was put aside, over any text put aside before. */
  predicate Stashes(s: System, t: System, text: string) {
    t.loops == s.loops && t.sink.hasPending && t.sink.pending == text && t.pendingSerial == |s.submitted|
  }

  /** A timer that can still fire is armed for this moment: the one that was armed already, if there was one. */
  predicate ArmedFor(s: System, t: System, due: Time) {
    && t.sink.timer.Some? && t.sink.timer.value.due == due && t.sink.timer.value.id in t.unfired
    && (s.sink.timer.Some? ==> t.sink.timer == s.sink.timer && t.unfired == s.unfired)
  }

  lemma SubmissionOfState(s: System, text: string, isFinal: bool, now: Time, cancellable: bool)
    requires ControlInv(s) && !IsBlank(text)
    ensures var t := StepFlush(s, text, isFinal, now, cancellable);
      var opens := s.sink.lastEmitAt + s.sink.throttle;
      if s.sink.disposed then t.loops == s.loops && t.sink == s.sink && t.awaited == s.awaited
      else if text == s.sink.lastEmitted then t.loops == s.loops && !t.sink.hasPending && t.awaited == s.awaited
      else if s.loops != [] then
        && Stashes(s, t, text)
        && (isFinal ==> t.sink.drain.Some? && t.awaited == s.awaited + {t.sink.drain.value})
        && (!isFinal ==> t.awaited == s.awaited)
      else if isFinal || now >= opens then Starts(s, t, text) && t.awaited == s.awaited
      else Stashes(s, t, text) && ArmedFor(s, t, opens) && t.awaited == s.awaited
  {
  }

  /**
   What a submission does after any run, by what the run did: a disposed sink ignores it and a text that was recorded
   last only clears what is pending. Otherwise a running loop gets the text, and a final submission then awaits the
   drain signal. With no loop running, the text is sent if and only if it is final or a throttle has passed since the
   last recorded time; else it is put aside, and a timer is armed for the moment when the throttle has passed.
   */
  lemma SubmissionAfterRun(throttle: int, run: seq<Action>, text: string, isFinal: bool, now: Time, cancellable: bool)
    requires Run(Initial(throttle), run) && !IsBlank(text)
    ensures var s := After(Initial(throttle), run);
      var t := Step(s, Flush(text, isFinal, now, cancellable));
      var last := LastRecord(Initial(throttle), run, Emission("", MIN_TIME));
      var opens := last.at + if throttle < 0 then 0 else throttle;
      if DisposeSink in run then t.loops == s.loops && t.sink == s.sink && t.awaited == s.awaited
      else if text == last.text then t.loops == s.loops && !t.sink.hasPending && t.awaited == s.awaited
      else if s.loops != [] then
        && Stashes(s, t, text)
        && (isFinal ==> t.sink.drain.Some? && t.awaited == s.awaited + {t.sink.drain.value})
        && (!isFinal ==> t.awaited == s.awaited)
      else if isFinal || now >= opens then Starts(s, t, text) && t.awaited == s.awaited
      else Stashes(s, t, text) && ArmedFor(s, t, opens) && t.awaited == s.awaited
  {
    InitialInv(throttle);
    RunKeepsInv(Initial(throttle), run);
    RunRecords(Initial(throttle), run);
    SubmissionOfState(After(Initial(throttle), run), text, isFinal, now, cancellable);
  }

  /**
   For a live, idle sink and a new text: a submission that is not final starts a loop exactly when the throttle has
   passed since the last recorded time, and arms a timer exactly when it has not.
   */
  lemma ThrottleOpensExactly(throttle: int, run: seq<Action>, text: string, now: Time, cancellable: bool)
    requires Run(Initial(throttle), run) && DisposeSink !in run && After(Initial(throttle), run).loops == []
    requires !IsBlank(text) && text != LastRecord(Initial(throttle), run, Emission("", MIN_TIME)).text
    ensures var t := Step(After(Initial(throttle), run), Flush(text, false, now, cancellable));
      var opens := LastRecord(Initial(throttle), run, Emission("", MIN_TIME)).at + if throttle < 0 then 0 else throttle;
      && (t.loops != [] <==> now >= opens) && (t.sink.timer.Some? <==> now < opens)
      && (now < opens ==> t.sink.timer.value.due == opens)
  {
    SubmissionAfterRun(throttle, run, text, false, now, cancellable);
  }

  // ---- One loop, chunks in order, no repetition ----

  /** The texts that a run submits, in order. */
  function Submissions(run: seq<Action>): seq<string> {
    if run == [] then []
    else (if run[0].Flush? then [run[0].text] else []) + Submissions(run[1..])
  }

  function Texts(log: seq<Chunk>): seq<string> {
    seq(|log|, i requires 0 <= i < |log| => log[i].text)
  }

  /** xs can be obtained from ys by deleting elements. */
  predicate IsSubsequence(xs: seq<string>, ys: seq<string>) {
    if xs == [] then true
    else if ys == [] then false
    else
      var (x, y) := (|xs| - 1, |ys| - 1);
      IsSubsequence(xs, ys[..y]) || (xs[x] == ys[y] && IsSubsequence(xs[..x], ys[..y]))
  }

  lemma {:induction false} SubmittedByRun(s: System, run: seq<Action>)
    requires Run(s, run)
    ensures After(s, run).submitted == s.submitted + Submissions(run)
    decreases |run|
  {
    if run == [] {
      assert s.submitted + [] == s.submitted;
    } else {
      var first := if run[0].Flush? then [run[0].text] else [];
      SubmittedStays(s, run[0]);
      SubmittedByRun(Step(s, run[0]), run[1..]);
      assert (s.submitted + first) + Submissions(run[1..]) == s.submitted + (first + Submissions(run[1..]));
    }
  }

  lemma {:induction false} EmbeddingIsSubsequence(xs: seq<string>, ys: seq<string>, at: seq<nat>)
    requires |at| == |xs|
    requires forall i :: 0 <= i < |xs| ==> at[i] < |ys| && ys[at[i]] == xs[i]
    requires forall i, j :: 0 <= i < j < |at| ==> at[i] < at[j]
    ensures IsSubsequence(xs, ys)
    decreases |ys|
  {
    if xs != [] {
      var (x, y) := (|xs| - 1, |ys| - 1);
      if at[x] == y {
        EmbeddingIsSubsequence(xs[..x], ys[..y], at[..x]);
      } else {
        EmbeddingIsSubsequence(xs, ys[..y], at);
      }
    }
  }

  /**
   In every run there is at most one dispatch loop, the in-progress flag says whether it exists, the actor
   sees the submitted texts in order, and it sees the same text twice in a row only if the acknowledgement
   of the first copy was lost.
   */
  lemma {:induction false} ChunksAreOrdered(throttle: int, run: seq<Action>)
    requires Run(Initial(throttle), run)
    ensures var t := After(Initial(throttle), run);
      && |t.loops| <= 1 && (t.sink.dispatching <==> |t.loops| == 1)
      && IsSubsequence(Texts(t.log), Submissions(run))
      && (forall i :: 0 < i < |t.log| && t.log[i - 1].text == t.log[i].text ==> !t.log[i - 1].acked)
  {
    InitialInv(throttle);
    RunKeepsInv(Initial(throttle), run);
    SubmittedByRun(Initial(throttle), run);
    var t := After(Initial(throttle), run);
    assert t.submitted == Submissions(run);
    EmbeddingIsSubsequence(Texts(t.log), t.submitted, seq(|t.log|, i requires 0 <= i < |t.log| => t.log[i].serial));
  }

  // ---- No lost tail ----

  /** Equal texts are only submitted one directly after the other. */
  ghost predicate EqualOnlyTogether(texts: seq<string>) {
    forall i, k, j :: 0 <= i <= k <= j < |texts| && texts[i] == texts[j] ==> texts[k] == texts[i]
  }

  predicate Uninterrupted(run: seq<Action>) {
    forall i :: 0 <= i < |run| ==> !run[i].Cancel? && !run[i].DisposeSink?
  }

  predicate MidFlight(s: System) {
    Current(s).Some? && Current(s).value.phase != Settled
  }

  predicate Quiescent(s: System) {
    s.loops == [] && s.sink.timer.None?
  }

  /** Serials of what was emitted, attempted, is in flight and is pending: they only grow. */
  ghost predicate SerialInv(s: System) {
    && (s.sink.lastEmitted != "" ==>
          TextAt(s, s.emittedSerial, s.sink.lastEmitted)
          && s.lastAttempt.Some? && s.emittedSerial <= s.lastAttempt.value.serial)
    && (s.lastAttempt.Some? ==>
          var attempt := s.lastAttempt.value;
          && attempt.serial < |s.submitted|
          && (attempt.acked <==> s.submitted[attempt.serial] == s.sink.lastEmitted)
          && (s.sink.hasPending ==> attempt.serial < s.pendingSerial)
          && (Current(s).Some? ==>
                if MidFlight(s) then attempt.serial < Current(s).value.serial
                else attempt.serial == Current(s).value.serial))
    && (Current(s).Some? && !MidFlight(s) ==> s.lastAttempt.Some?)
  }

  /** The newest text is pending, or in flight, or was the last one attempted. */
  ghost predicate TailInv(s: System) {
    && !s.sink.disposed
    && (s.sink.hasPending ==> s.sink.timer.Some? || s.sink.dispatching)
    && if s.submitted == [] then !s.sink.hasPending && s.loops == []
       else
         var newest := |s.submitted| - 1;
         if s.sink.hasPending then s.pendingSerial == newest
         else if MidFlight(s) then Current(s).value.text == s.submitted[newest]
         else s.lastAttempt.Some? && TextAt(s, s.lastAttempt.value.serial, s.submitted[newest])
  }

  ghost predicate TextInv(s: System) {
    SingleLoop(s) && DisposedInv(s) && PendingInv(s) && SubmittedInv(s) && LoopInv(s)
  }

  lemma FlushKeepsSerials(s: System, text: string, isFinal: bool, now: Time, cancellable: bool)
    requires TextInv(s) && SerialInv(s) && !IsBlank(text)
    ensures SerialInv(StepFlush(s, text, isFinal, now, cancellable))
  {
    var t := StepFlush(s, text, isFinal, now, cancellable);
    assert t.lastAttempt == s.lastAttempt && t.emittedSerial == s.emittedSerial && t.sink.lastEmitted == s.sink.lastEmitted;
  }

  lemma FireKeepsSerials(s: System, timer: nat)
    requires TextInv(s) && SerialInv(s)
    ensures SerialInv(StepFire(s, timer))
  {
  }

  lemma PollKeepsSerials(s: System, l: nat)
    requires TextInv(s) && SerialInv(s) && Enabled(s, Poll(l))
    ensures SerialInv(StepPoll(s, l))
  {
  }

  lemma RecordKeepsSerials(s: System, l: nat, now: Time)
    requires TextInv(s) && SerialInv(s) && Enabled(s, Record(l, now))
    ensures SerialInv(Step(s, Record(l, now)))
  {
  }

  lemma SwallowKeepsSerials(s: System, l: nat)
    requires TextInv(s) && SerialInv(s) && Enabled(s, Swallow(l))
    ensures SerialInv(Step(s, Swallow(l)))
  {
  }

  lemma OthersKeepSerials(s: System, a: Action)
    requires SingleLoop(s) && SerialInv(s) && Enabled(s, a) && (a.Deliver? || a.Release? || a.DisposeSink?)
    ensures SerialInv(Step(s, a))
  {
  }

  lemma StepKeepsSerials(s: System, a: Action)
    requires TextInv(s) && SerialInv(s) && Enabled(s, a) && !a.Cancel?
    ensures SerialInv(Step(s, a))
  {
    match a
    case Flush(text, isFinal, now, cancellable) => FlushKeepsSerials(s, text, isFinal, now, cancellable);
    case Fire(timer) => FireKeepsSerials(s, timer);
    case Poll(l) => PollKeepsSerials(s, l);
    case Record(l, now) => RecordKeepsSerials(s, l, now);
    case Swallow(l) => SwallowKeepsSerials(s, l);
    case Deliver(_, _) => OthersKeepSerials(s, a);
    case Release(_) => OthersKeepSerials(s, a);
    case DisposeSink => OthersKeepSerials(s, a);
  }

  /** A text that equals the emitted one is separated from it by nothing else. */
  lemma OnlyEmittedBetween(texts: seq<string>, emitted: nat, k: nat, newest: nat)
    requires EqualOnlyTogether(texts) && emitted <= k <= newest < |texts| && texts[emitted] == texts[newest]
    ensures texts[k] == texts[newest]
  {
  }

  lemma FlushKeepsTail(s: System, text: string, isFinal: bool, now: Time, cancellable: bool)
    requires TextInv(s) && SerialInv(s) && TailInv(s) && !IsBlank(text)
    requires EqualOnlyTogether(s.submitted + [text])
    ensures TailInv(StepFlush(s, text, isFinal, now, cancellable))
  {
    if text == s.sink.lastEmitted {
      var texts := s.submitted + [text];
      OnlyEmittedBetween(texts, s.emittedSerial, s.lastAttempt.value.serial, |s.submitted|);
      if MidFlight(s) {
        OnlyEmittedBetween(texts, s.emittedSerial, Current(s).value.serial, |s.submitted|);
      }
    }
  }

  lemma FireKeepsTail(s: System, timer: nat)
    requires TextInv(s) && SerialInv(s) && TailInv(s) && timer in s.unfired && EqualOnlyTogether(s.submitted)
    ensures TailInv(StepFire(s, timer))
  {
    if s.sink.hasPending && s.sink.pending == s.sink.lastEmitted {
      OnlyEmittedBetween(s.submitted, s.emittedSerial, s.lastAttempt.value.serial, s.pendingSerial);
    }
  }

  lemma PollKeepsTail(s: System, l: nat)
    requires TextInv(s) && SerialInv(s) && TailInv(s) && Enabled(s, Poll(l)) && EqualOnlyTogether(s.submitted)
    ensures TailInv(StepPoll(s, l))
  {
    if s.sink.hasPending && s.sink.pending == s.sink.lastEmitted {
      OnlyEmittedBetween(s.submitted, s.emittedSerial, s.lastAttempt.value.serial, s.pendingSerial);
    }
  }

  lemma DispatchKeepsTail(s: System, a: Action)
    requires TextInv(s) && TailInv(s) && Enabled(s, a) && (a.Deliver? || a.Record? || a.Swallow? || a.Release?)
    ensures TailInv(Step(s, a))
  {
  }

  lemma StepKeepsTail(s: System, a: Action)
    requires TextInv(s) && SerialInv(s) && TailInv(s) && Enabled(s, a) && !a.Cancel? && !a.DisposeSink?
    requires EqualOnlyTogether(Step(s, a).submitted)
    ensures TailInv(Step(s, a))
  {
    SubmittedStays(s, a);
    match a
    case Flush(text, isFinal, now, cancellable) => FlushKeepsTail(s, text, isFinal, now, cancellable);
    case Fire(timer) => FireKeepsTail(s, timer);
    case Poll(l) => PollKeepsTail(s, l);
    case Deliver(_, _) => DispatchKeepsTail(s, a);
    case Record(_, _) => DispatchKeepsTail(s, a);
    case Swallow(_) => DispatchKeepsTail(s, a);
    case Release(_) => DispatchKeepsTail(s, a);
  }

  /** The last acknowledged attempt is the newest chunk of the log. */
  ghost predicate AttemptLogged(s: System) {
    s.lastAttempt.Some? && s.lastAttempt.value.acked && (MidFlight(s) ==> InFlight(s, Sending)) ==>
      && s.log != []
      && s.log[|s.log| - 1].serial == s.lastAttempt.value.serial
  }

  lemma StepKeepsAttemptLogged(s: System, a: Action)
    requires SingleLoop(s) && LogFrontier(s) && AttemptLogged(s) && Enabled(s, a) && !a.Cancel?
    ensures AttemptLogged(Step(s, a))
  {
  }

  lemma PrefixTogether(texts: seq<string>, more: seq<string>)
    requires EqualOnlyTogether(texts + more)
    ensures EqualOnlyTogether(texts)
  {
    forall i, k, j | 0 <= i <= k <= j < |texts| && texts[i] == texts[j]
      ensures texts[k] == texts[i]
    {
      OnlyEmittedBetween(texts + more, i, k, j);
    }
  }

  ghost predicate FlowInv(s: System) {
    Inv(s) && SerialInv(s) && TailInv(s) && AttemptLogged(s)
  }

  lemma StepKeepsFlow(s: System, a: Action)
    requires FlowInv(s) && Enabled(s, a) && !a.Cancel? && !a.DisposeSink?
    requires EqualOnlyTogether(Step(s, a).submitted)
    ensures FlowInv(Step(s, a))
  {
    StepKeepsInv(s, a);
    StepKeepsSerials(s, a);
    StepKeepsTail(s, a);
    StepKeepsAttemptLogged(s, a);
  }

  lemma {:induction false} RunKeepsFlow(s: System, run: seq<Action>)
    requires FlowInv(s)
    requires Run(s, run) && Uninterrupted(run) && EqualOnlyTogether(After(s, run).submitted)
    ensures FlowInv(After(s, run))
    decreases |run|
  {
    if run != [] {
      var t := Step(s, run[0]);
      SubmittedByRun(t, run[1..]);
      PrefixTogether(t.submitted, Submissions(run[1..]));
      StepKeepsFlow(s, run[0]);
      RunKeepsFlow(t, run[1..]);
    }
  }

  /**
   No lost tail. Without cancellation and disposal, and with equal texts submitted only together: once no
   loop runs and no timer is armed nothing is pending, the newest submitted text was the last one
   attempted, and it is the emitted one exactly when that attempt was acknowledged.
   */
  lemma NoLostTail(throttle: int, run: seq<Action>)
    requires Run(Initial(throttle), run) && Uninterrupted(run) && EqualOnlyTogether(Submissions(run))
    requires Quiescent(After(Initial(throttle), run)) && Submissions(run) != []
    ensures var (t, texts) := (After(Initial(throttle), run), Submissions(run));
      var newest := texts[|texts| - 1];
      && !t.sink.hasPending
      && t.lastAttempt.Some? && t.lastAttempt.value.serial < |texts|
      && texts[t.lastAttempt.value.serial] == newest
      && (t.sink.lastEmitted == newest <==> t.lastAttempt.value.acked)
      && (t.lastAttempt.value.acked ==> t.log != [] && t.log[|t.log| - 1].text == newest)
  {
    var s := Initial(throttle);
    InitialInv(throttle);
    SubmittedByRun(s, run);
    assert s.submitted + Submissions(run) == Submissions(run);
    RunKeepsFlow(s, run);
  }

  // ---- What the actor sees last ----

  function LastText(log: seq<Chunk>): string {
    if log == [] then "" else log[|log| - 1].text
  }

  /** The text that the actor sees last when everything pending and in flight gets through. */
  function Outcome(s: System): string {
    if s.sink.hasPending then s.sink.pending
    else if InFlight(s, Sending) then Current(s).value.text
    else LastText(s.log)
  }

  /** Pending text equals the emitted one only until the loop that emitted it looks; then the actor has it. */
  ghost predicate EchoInv(s: System) {
    && (s.sink.lastEmitted != "" ==> s.log != [])
    && (s.sink.hasPending && s.sink.pending == s.sink.lastEmitted ==>
          InFlight(s, Settled) && LastText(s.log) == s.sink.pending)
  }

  lemma FlushKeepsEcho(s: System, text: string, isFinal: bool, now: Time, cancellable: bool)
    requires SingleLoop(s) && DisposedInv(s) && EchoInv(s)
    ensures EchoInv(StepFlush(s, text, isFinal, now, cancellable))
  {
  }

  lemma StepKeepsEcho(s: System, a: Action)
    requires Inv(s) && EchoInv(s) && Enabled(s, a)
    ensures EchoInv(Step(s, a))
  {
    match a
    case Flush(text, isFinal, now, cancellable) => FlushKeepsEcho(s, text, isFinal, now, cancellable);
    case Fire(_) =>
    case Poll(_) =>
    case Deliver(_, _) =>
    case Record(_, _) =>
    case Swallow(_) =>
    case Cancel(_) =>
    case Release(_) =>
    case DisposeSink =>
  }

  lemma {:induction false} RunKeepsEcho(s: System, run: seq<Action>)
    requires Inv(s) && EchoInv(s) && Run(s, run)
    ensures Inv(After(s, run)) && EchoInv(After(s, run))
    decreases |run|
  {
    if run != [] {
      StepKeepsInv(s, run[0]);
      StepKeepsEcho(s, run[0]);
      RunKeepsEcho(Step(s, run[0]), run[1..]);
    }
  }

  /** No submission, cancellation or disposal, and no chunk that fails before it reaches the actor. */
  predicate IsSmooth(s: System, a: Action)
    requires Enabled(s, a)
  {
    !a.Flush? && !a.Cancel? && !a.DisposeSink? && (a.Swallow? ==> s.loops[a.loop].phase != Sending)
  }

  predicate Smooth(s: System, run: seq<Action>)
    requires Run(s, run)
    decreases |run|
  {
    run == [] || (IsSmooth(s, run[0]) && Smooth(Step(s, run[0]), run[1..]))
  }

  lemma SmoothStepKeepsOutcome(s: System, a: Action)
    requires Inv(s) && EchoInv(s) && !s.sink.disposed && Enabled(s, a) && IsSmooth(s, a)
    ensures Outcome(Step(s, a)) == Outcome(s) && !Step(s, a).sink.disposed
  {
    match a
    case Fire(_) =>
    case Poll(_) =>
    case Deliver(_, _) =>
    case Record(_, _) =>
    case Swallow(_) =>
    case Release(_) =>
  }

  lemma {:induction false} SmoothRunKeepsOutcome(s: System, run: seq<Action>)
    requires Inv(s) && EchoInv(s) && !s.sink.disposed && Run(s, run) && Smooth(s, run)
    ensures Outcome(After(s, run)) == Outcome(s)
    decreases |run|
  {
    if run != [] {
      StepKeepsInv(s, run[0]);
      StepKeepsEcho(s, run[0]);
      SmoothStepKeepsOutcome(s, run[0]);
      SmoothRunKeepsOutcome(Step(s, run[0]), run[1..]);
    }
  }

  /** The shortcut takes a text for the newest one on the wire although the actor has, or is sent, another. */
  predicate Misjudged(s: System, text: string) {
    && text == s.sink.lastEmitted
    && (MidFlight(s) || (s.log != [] && !s.log[|s.log| - 1].acked && s.log[|s.log| - 1].text != text))
  }

  lemma SubmissionOutcome(s: System, text: string, isFinal: bool, now: Time, cancellable: bool)
    requires Inv(s) && EchoInv(s) && !s.sink.disposed && !IsBlank(text)
    ensures Outcome(StepFlush(s, text, isFinal, now, cancellable)) == text <==> !Misjudged(s, text)
  {
  }

  lemma LossFrom(s: System, submit: Action, more: seq<Action>)
    requires Inv(s) && EchoInv(s) && !s.sink.disposed && submit.Flush? && Enabled(s, submit)
    requires Run(Step(s, submit), more) && Smooth(Step(s, submit), more)
    requires After(Step(s, submit), more).loops == [] && !After(Step(s, submit), more).sink.hasPending
    ensures LastText(After(Step(s, submit), more).log) == submit.text <==> !Misjudged(s, submit.text)
  {
    var t := Step(s, submit);
    StepKeepsInv(s, submit);
    StepKeepsEcho(s, submit);
    SubmissionOutcome(s, submit.text, submit.isFinal, submit.now, submit.cancellable);
    SmoothRunKeepsOutcome(t, more);
  }

  /**
   The "already on the wire" shortcut, exactly. Submit a text in any reachable state and let the sink come to rest
   without a further submission or failure: the text is the last that the actor saw, unless it repeated the
   emitted text while another was in flight, or after another whose acknowledgement was lost.
   */
  lemma ShortcutLosesExactly(throttle: int, run: seq<Action>, text: string, isFinal: bool, now: Time, cancellable: bool,
                             more: seq<Action>)
    requires Run(Initial(throttle), run) && !After(Initial(throttle), run).sink.disposed && !IsBlank(text)
    requires var t := Step(After(Initial(throttle), run), Flush(text, isFinal, now, cancellable));
      Run(t, more) && Smooth(t, more) && After(t, more).loops == [] && !After(t, more).sink.hasPending
    ensures var s := After(Initial(throttle), run);
      var end := After(Step(s, Flush(text, isFinal, now, cancellable)), more);
      LastText(end.log) == text <==> !Misjudged(s, text)
  {
    InitialInv(throttle);
    RunKeepsEcho(Initial(throttle), run);
    LossFrom(After(Initial(throttle), run), Flush(text, isFinal, now, cancellable), more);
  }

  lemma RunCons(s: System, a: Action, rest: seq<Action>)
    requires Enabled(s, a) && Run(Step(s, a), rest)
    ensures Run(s, [a] + rest) && After(s, [a] + rest) == After(Step(s, a), rest)
  {
  }

  lemma RunThree(s: System, a: Action, b: Action, c: Action)
    requires Enabled(s, a) && Enabled(Step(s, a), b) && Enabled(Step(Step(s, a), b), c)
    ensures Run(s, [a, b, c]) && After(s, [a, b, c]) == Step(Step(Step(s, a), b), c)
  {
    var (s1, s2) := (Step(s, a), Step(Step(s, a), b));
    RunCons(s2, c, []);
    RunCons(s1, b, [c]);
    RunCons(s, a, [b, c]);
    assert [c] + [] == [c] && [b] + [c] == [b, c] && [a] + [b, c] == [a, b, c];
  }

  predicate Idle(s: System) {
    s.loops == [] && !s.sink.dispatching && !s.sink.disposed && !s.sink.hasPending && s.sink.timer.None?
  }

  /** A final text submitted to an idle sink goes out; another one meanwhile is handled by `FlushBlock`. */
  lemma SendThrough(s: System, text: string, during: seq<Action>)
    requires Idle(s) && !IsBlank(text) && text != s.sink.lastEmitted
    requires during != [] ==> during == [Flush(s.sink.lastEmitted, true, 0, false)] && !IsBlank(s.sink.lastEmitted)
    ensures var run := [Flush(text, true, 0, false)] + during + [Deliver(0, true), Record(0, 0), Poll(0)];
      && Run(s, run)
      && var t := After(s, run);
         && Idle(t) && t.sink.lastEmitted == text
         && t.log == s.log + [Chunk(text, |s.submitted|, true)]
         && t.submitted == s.submitted + [text] + if during == [] then [] else [s.sink.lastEmitted]
  {
    var s1 := Step(s, Flush(text, true, 0, false));
    var s2 := if during == [] then s1 else Step(s1, during[0]);
    var s3 := Step(s2, Deliver(0, true));
    var s4 := Step(s3, Record(0, 0));
    var s5 := Step(s4, Poll(0));
    RunThree(s2, Deliver(0, true), Record(0, 0), Poll(0));
    var tail := [Deliver(0, true), Record(0, 0), Poll(0)];
    if during != [] {
      RunCons(s1, during[0], tail);
      assert [during[0]] + tail == during + tail;
    }
    assert during + tail == if during == [] then tail else during + tail;
    RunCons(s, Flush(text, true, 0, false), during + tail);
    assert [Flush(text, true, 0, false)] + (during + tail)
        == [Flush(text, true, 0, false)] + during + [Deliver(0, true), Record(0, 0), Poll(0)];
  }

  lemma {:induction false} RunAppend(s: System, run: seq<Action>, more: seq<Action>)
    requires Run(s, run) && Run(After(s, run), more)
    ensures Run(s, run + more) && After(s, run + more) == After(After(s, run), more)
    decreases |run|
  {
    if run == [] {
      assert run + more == more;
    } else {
      RunAppend(Step(s, run[0]), run[1..], more);
      assert (run + more)[1..] == run[1..] + more;
    }
  }

  /** The assumption of `NoLostTail` is needed: "a", "b", "a" leaves "b" on the wire. */
  lemma RepeatedTextIsLost() returns (run: seq<Action>)
    ensures Run(Initial(0), run) && Uninterrupted(run) && Submissions(run) == ["a", "b", "a"]
    ensures var t := After(Initial(0), run);
      Quiescent(t) && !t.sink.hasPending && t.sink.lastEmitted == "b" && |t.log| == 2
  {
    assert !IsBlank("a") by { assert !IsWhiteSpace("a"[0]); }
    assert !IsBlank("b") by { assert !IsWhiteSpace("b"[0]); }
    var acknowledge := [Deliver(0, true), Record(0, 0), Poll(0)];
    var first := [Flush("a", true, 0, false)] + [] + acknowledge;
    var second := [Flush("b", true, 0, false)] + [Flush("a", true, 0, false)] + acknowledge;
    var s := Initial(0);
    SendThrough(s, "a", []);
    SendThrough(After(s, first), "b", [Flush("a", true, 0, false)]);
    run := first + second;
    RunAppend(s, first, second);
    SubmittedByRun(s, run);
    assert Submissions(run) == After(s, run).submitted;
  }

  /** One text goes out and is acknowledged or not. */
  lemma SendOne(s: System, text: string, acked: bool)
    requires Idle(s) && !IsBlank(text) && text != s.sink.lastEmitted
    ensures var run := [Flush(text, true, 0, false)] + [Deliver(0, acked), if acked then Record(0, 0) else Swallow(0), Poll(0)];
      && Run(s, run)
      && var t := After(s, run);
         && Idle(t) && t.sink.lastEmitted == (if acked then text else s.sink.lastEmitted)
         && t.log == s.log + [Chunk(text, |s.submitted|, acked)] && t.submitted == s.submitted + [text]
  {
    var s1 := Step(s, Flush(text, true, 0, false));
    var settle := if acked then Record(0, 0) else Swallow(0);
    RunThree(s1, Deliver(0, acked), settle, Poll(0));
    RunCons(s, Flush(text, true, 0, false), [Deliver(0, acked), settle, Poll(0)]);
  }

  /** Even with nothing in flight: "a", "b" whose acknowledgement is lost, "a" leaves "b" on the wire. */
  lemma RepeatAfterLostAcknowledgement() returns (run: seq<Action>)
    ensures Run(Initial(0), run) && Submissions(run) == ["a", "b", "a"]
    ensures var t := After(Initial(0), run); Idle(t) && LastText(t.log) == "b"
  {
    assert !IsBlank("a") by { assert !IsWhiteSpace("a"[0]); }
    assert !IsBlank("b") by { assert !IsWhiteSpace("b"[0]); }
    var s := Initial(0);
    var first := [Flush("a", true, 0, false)] + [Deliver(0, true), Record(0, 0), Poll(0)];
    var second := [Flush("b", true, 0, false)] + [Deliver(0, false), Swallow(0), Poll(0)];
    var third := [Flush("a", true, 0, false)] + [];
    SendOne(s, "a", true);
    SendOne(After(s, first), "b", false);
    RunAppend(s, first, second);
    var before := After(s, first + second);
    assert Idle(before) && before.sink.lastEmitted == "a";
    RunCons(before, Flush("a", true, 0, false), []);
    RunAppend(s, first + second, third);
    run := first + second + third;
    SubmittedByRun(s, run);
    assert Submissions(run) == After(s, run).submitted;
  }

  // ---- Pending text, drain signals, disposal ----

  /** Somebody will look at the pending text. */
  ghost predicate Served(s: System) {
    s.sink.hasPending ==> s.sink.timer.Some? || |s.loops| > 0
  }

  /** Pending text is stranded by exactly one kind of step: cancelling a loop while something is pending. */
  lemma OnlyCancellationStrands(s: System, a: Action)
    requires Inv(s) && Served(s) && Enabled(s, a)
    ensures Served(Step(s, a)) <==> !(a.Cancel? && s.sink.hasPending)
  {
  }

  /**
   In every run a drain signal exists only while a loop runs and the sink is not disposed; and when no loop
   runs and every signal taken out of the sink has been completed, no finalizing call is left waiting.
   */
  lemma NoFinalizerHangs(throttle: int, run: seq<Action>)
    requires Run(Initial(throttle), run)
    ensures var t := After(Initial(throttle), run);
      && (t.sink.drain.Some? ==> |t.loops| == 1 && !t.sink.disposed)
      && (t.loops == [] || t.sink.disposed ==> t.awaited <= t.completed + t.releasing)
  {
    InitialInv(throttle);
    RunKeepsInv(Initial(throttle), run);
  }

  /** The chunks in the log and the one that is being sent. */
  function Chunks(s: System): nat {
    |s.log| + if InFlight(s, Sending) then 1 else 0
  }

  lemma DisposedStep(s: System, a: Action)
    requires SingleLoop(s) && DisposedInv(s) && s.sink.disposed && Enabled(s, a)
    ensures Step(s, a).sink.disposed && Chunks(Step(s, a)) <= Chunks(s)
  {
    match a
    case Flush(_, _, _, _) =>
    case Fire(_) =>
    case Poll(_) =>
    case Deliver(_, _) =>
    case Record(_, _) =>
    case Swallow(_) =>
    case Cancel(_) =>
    case Release(_) =>
    case DisposeSink =>
  }

  /** After disposal at most the chunk that was being sent still reaches the actor. */
  lemma {:induction false} DisposedSinkFallsSilent(s: System, run: seq<Action>)
    requires Inv(s) && s.sink.disposed && Run(s, run)
    ensures Chunks(After(s, run)) <= Chunks(s)
    decreases |run|
  {
    if run != [] {
      StepKeepsInv(s, run[0]);
      DisposedStep(s, run[0]);
      DisposedSinkFallsSilent(Step(s, run[0]), run[1..]);
    }
  }

  // ---- When can another chunk follow? ----

  predicate Silent(run: seq<Action>) {
    forall i :: 0 <= i < |run| ==> !run[i].Flush?
  }

  /** The emitted text as the next look at the pending text will see it. */
  function Upcoming(s: System): string {
    if InFlight(s, Delivered(true)) then Current(s).value.text else s.sink.lastEmitted
  }

  predicate MayFollow(s: System) {
    || InFlight(s, Sending)
    || (s.sink.hasPending && s.sink.pending != Upcoming(s) && (s.loops != [] || s.unfired != {}))
  }

  lemma QuietStep(s: System, a: Action)
    requires Inv(s) && !MayFollow(s) && Enabled(s, a) && !a.Flush?
    ensures !MayFollow(Step(s, a)) && Step(s, a).log == s.log
  {
  }

  lemma {:induction false} QuietRun(s: System, run: seq<Action>)
    requires Inv(s) && !MayFollow(s) && Run(s, run) && Silent(run)
    ensures Inv(After(s, run)) && !MayFollow(After(s, run)) && After(s, run).log == s.log
    decreases |run|
  {
    if run != [] {
      QuietStep(s, run[0]);
      StepKeepsInv(s, run[0]);
      QuietRun(Step(s, run[0]), run[1..]);
    }
  }

  lemma LoudRun(s: System) returns (run: seq<Action>)
    requires Inv(s) && MayFollow(s)
    ensures Run(s, run) && Silent(run) && Uninterrupted(run) && |After(s, run).log| > |s.log|
    decreases if InFlight(s, Sending) then 0 else if s.loops == [] || InFlight(s, Settled) then 1 else 2
  {
    if InFlight(s, Sending) {
      run := [Deliver(0, true)];
      RunCons(s, Deliver(0, true), []);
    } else if s.loops == [] {
      var timer :| timer in s.unfired;
      StepKeepsInv(s, Fire(timer));
      run := LoudRun(Step(s, Fire(timer)));
      RunCons(s, Fire(timer), run);
      run := [Fire(timer)] + run;
    } else {
      var a := if InFlight(s, Settled) then Poll(0)
               else if InFlight(s, Delivered(true)) then Record(0, 0) else Swallow(0);
      StepKeepsInv(s, a);
      run := LoudRun(Step(s, a));
      RunCons(s, a, run);
      run := [a] + run;
    }
  }

  /** Exactly when the state is `MayFollow` can a chunk reach the actor without a further submission. */
  lemma ChunkFollowsExactly(s: System)
    requires Inv(s)
    ensures MayFollow(s) <==> exists run :: Run(s, run) && Silent(run) && |After(s, run).log| > |s.log|
  {
    if MayFollow(s) {
      var run := LoudRun(s);
    } else {
      forall run | Run(s, run) && Silent(run)
        ensures After(s, run).log == s.log
      {
        QuietRun(s, run);
      }
    }
  }
}
