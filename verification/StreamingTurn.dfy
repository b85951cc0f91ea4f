/**
 One LLM reply turn: the inbox runtime feeds the sink, finalizes it and then sends the ready event, while
 timers and dispatch loops keep running in the background.
 */
module StreamingTurn {
  import opened Text
  import opened StreamingSink
  import opened StreamingProtocol

  /** How the reply generator ended. */
  datatype Generated =
    | Reply(text: string, interactiveIntent: bool)
    | Threw

  datatype Stage =
    | Generating
    | Concluding(finalText: Option<string>)   // the text to finalize with, if the turn finalizes
    | Finalized(text: string)
    | Ready(finalized: Option<string>, chunksBefore: nat)

  datatype Waiting =
    | Free
    | OnLoop(id: nat)        // the caller runs the dispatch loop itself
    | OnSignal(signal: nat)  // the caller awaits the drain signal

  datatype Turn = Turn(sys: System, stage: Stage, waiting: Waiting)

  datatype TurnAction =
    | Delta(text: string, now: Time)
    | Generate(result: Generated)
    | CallFinalize(now: Time)
    | Background(action: Action)
    | Resume
    | SendReady
    | CloseSink

  function NewTurn(throttle: int): Turn {
    Turn(Initial(throttle), Generating, Free)
  }

  /** The text that the turn finalizes the sink with: only a plain, non-blank reply is finalized. */
  function TextToFinalize(result: Generated): Option<string> {
    if result.Reply? && !result.interactiveIntent && !IsBlank(result.text) then Some(result.text) else None
  }

  predicate CanResume(t: Turn) {
    match t.waiting
    case Free => false
    case OnLoop(id) => Current(t.sys).None? || Current(t.sys).value.id != id
    case OnSignal(signal) => signal in t.sys.completed
  }

  predicate TurnEnabled(t: Turn, a: TurnAction) {
    match a
    case Delta(_, _) => t.stage == Generating && t.waiting == Free
    case Generate(_) => t.stage == Generating && t.waiting == Free
    case CallFinalize(_) => t.stage.Concluding? && t.stage.finalText.Some? && t.waiting == Free
                            && !IsBlank(t.stage.finalText.value)
    case Background(b) => !b.Flush? && !b.Cancel? && !b.DisposeSink? && Enabled(t.sys, b)
    case Resume => CanResume(t)
    case SendReady => t.waiting == Free && (t.stage == Concluding(None) || t.stage.Finalized?)
    case CloseSink => t.stage.Ready?
  }

  function Submit(t: Turn, text: string, isFinal: bool, now: Time): Turn
    requires !IsBlank(text)
  {
    var decision := FlushBlock(t.sys.sink, text, isFinal, now, t.sys.nextId, t.sys.nextId + 1).1;
    t.(sys := StepFlush(t.sys, text, isFinal, now, false),
       waiting := match decision
         case Return => Free
         case StartLoop(_) => OnLoop(t.sys.nextId + 2)
         case AwaitDrain(signal) => OnSignal(signal))
  }

  function TurnStep(t: Turn, a: TurnAction): Turn
    requires TurnEnabled(t, a)
  {
    match a
    case Delta(text, now) => if IsBlank(text) then t else Submit(t, text, false, now)
    case Generate(result) => t.(stage := Concluding(TextToFinalize(result)))
    case CallFinalize(now) =>
      Submit(t.(stage := Finalized(t.stage.finalText.value)), t.stage.finalText.value, true, now)
    case Background(b) => t.(sys := Step(t.sys, b))
    case Resume => t.(waiting := Free)
    case SendReady =>
      t.(stage := Ready(if t.stage.Finalized? then Some(t.stage.text) else None, |t.sys.log|))
    case CloseSink => t.(sys := Step(t.sys, DisposeSink))
  }

  predicate TurnRun(t: Turn, run: seq<TurnAction>)
    decreases |run|
  {
    run == [] || (TurnEnabled(t, run[0]) && TurnRun(TurnStep(t, run[0]), run[1..]))
  }

  function TurnAfter(t: Turn, run: seq<TurnAction>): Turn
    requires TurnRun(t, run)
    decreases |run|
  {
    if run == [] then t else TurnAfter(TurnStep(t, run[0]), run[1..])
  }

  // ---- The ready event comes last ----

  /** Nothing is pending and nothing is in flight. */
  predicate Sealed(s: System) {
    !s.sink.hasPending && !MidFlight(s)
  }

  ghost predicate FinalInv(t: Turn) {
    match t.waiting
    case Free => Sealed(t.sys)
    case OnLoop(id) =>
      !t.sys.sink.hasPending && (Sealed(t.sys) || (Current(t.sys).Some? && Current(t.sys).value.id == id))
    case OnSignal(signal) =>
      && signal in t.sys.awaited
      && (Sealed(t.sys) || (t.sys.sink.drain == Some(signal) && signal !in t.sys.completed))
  }

  ghost predicate TurnInv(t: Turn) {
    match t.stage
    case Generating => FlowInv(t.sys)
    case Concluding(_) => FlowInv(t.sys)
    case Finalized(text) =>
      && FlowInv(t.sys) && FinalInv(t)
      && t.sys.submitted != [] && t.sys.submitted[|t.sys.submitted| - 1] == text
    case Ready(finalized, chunks) =>
      Inv(t.sys) && (finalized.Some? ==> Sealed(t.sys) && |t.sys.log| == chunks)
  }

  lemma SealedStaysSealed(s: System, a: Action)
    requires Inv(s) && Sealed(s) && Enabled(s, a) && !a.Flush?
    ensures Sealed(Step(s, a)) && Step(s, a).log == s.log && !MayFollow(s)
  {
  }

  /** A loop leaves, and a drain signal leaves the sink, only when nothing is pending. */
  lemma LeavingMeansSealed(s: System, a: Action)
    requires Inv(s) && !s.sink.disposed && Enabled(s, a) && !a.Flush? && !a.Cancel? && !a.DisposeSink?
    ensures var t := Step(s, a);
      && (Current(s).Some? && (Current(t).None? || Current(t).value.id != Current(s).value.id) ==> Sealed(t))
      && (s.sink.drain.Some? && t.sink.drain != s.sink.drain ==> Sealed(t))
      && (!s.sink.hasPending ==> !t.sink.hasPending)
  {
  }

  lemma FinalizeEstablishes(t: Turn, now: Time)
    requires TurnEnabled(t, CallFinalize(now)) && TurnInv(t)
    requires EqualOnlyTogether(TurnStep(t, CallFinalize(now)).sys.submitted)
    ensures FinalInv(TurnStep(t, CallFinalize(now)))
  {
    var (s, text) := (t.sys, t.stage.finalText.value);
    if text == s.sink.lastEmitted && MidFlight(s) {
      OnlyEmittedBetween(s.submitted + [text], s.emittedSerial, Current(s).value.serial, |s.submitted|);
      assert false;
    }
  }

  lemma BackgroundKeepsFinal(t: Turn, b: Action)
    requires Inv(t.sys) && !t.sys.sink.disposed && FinalInv(t) && TurnEnabled(t, Background(b))
    ensures FinalInv(TurnStep(t, Background(b)))
  {
    LeavingMeansSealed(t.sys, b);
    if Sealed(t.sys) {
      SealedStaysSealed(t.sys, b);
    } else if t.waiting.OnSignal? {
      assert t.sys.sink.drain.value !in t.sys.releasing;
    }
  }

  lemma DeltaKeepsTurn(t: Turn, text: string, now: Time)
    requires TurnInv(t) && TurnEnabled(t, Delta(text, now))
    requires EqualOnlyTogether(TurnStep(t, Delta(text, now)).sys.submitted)
    ensures TurnInv(TurnStep(t, Delta(text, now)))
  {
    if !IsBlank(text) {
      StepKeepsFlow(t.sys, Flush(text, false, now, false));
    }
  }

  lemma FinalizeKeepsTurn(t: Turn, now: Time)
    requires TurnInv(t) && TurnEnabled(t, CallFinalize(now))
    requires EqualOnlyTogether(TurnStep(t, CallFinalize(now)).sys.submitted)
    ensures TurnInv(TurnStep(t, CallFinalize(now)))
  {
    StepKeepsFlow(t.sys, Flush(t.stage.finalText.value, true, now, false));
    FinalizeEstablishes(t, now);
  }

  lemma BackgroundKeepsFlow(t: Turn, b: Action)
    requires FlowInv(t.sys) && TurnEnabled(t, Background(b)) && !t.stage.Ready?
    requires EqualOnlyTogether(Step(t.sys, b).submitted)
    ensures FlowInv(TurnStep(t, Background(b)).sys) && TurnStep(t, Background(b)).stage == t.stage
    ensures TurnStep(t, Background(b)).sys.submitted == t.sys.submitted
  {
    StepKeepsFlow(t.sys, b);
    SubmittedStays(t.sys, b);
  }

  lemma BackgroundKeepsTurn(t: Turn, b: Action)
    requires TurnInv(t) && !t.stage.Ready? && TurnEnabled(t, Background(b))
    requires EqualOnlyTogether(Step(t.sys, b).submitted)
    ensures TurnInv(TurnStep(t, Background(b)))
  {
    BackgroundKeepsFlow(t, b);
    if t.stage.Finalized? {
      BackgroundKeepsFinal(t, b);
    }
  }

  lemma StepAfterReady(t: Turn, a: TurnAction)
    requires TurnInv(t) && t.stage.Ready? && TurnEnabled(t, a)
    ensures TurnInv(TurnStep(t, a))
  {
    if a.Background? || a.CloseSink? {
      var b := if a.Background? then a.action else DisposeSink;
      StepKeepsInv(t.sys, b);
      if Sealed(t.sys) {
        SealedStaysSealed(t.sys, b);
      }
    }
  }

  lemma StepKeepsTurn(t: Turn, a: TurnAction)
    requires TurnInv(t) && TurnEnabled(t, a) && EqualOnlyTogether(TurnStep(t, a).sys.submitted)
    ensures TurnInv(TurnStep(t, a))
  {
    if t.stage.Ready? {
      StepAfterReady(t, a);
    } else {
      match a
      case Delta(text, now) => DeltaKeepsTurn(t, text, now);
      case CallFinalize(now) => FinalizeKeepsTurn(t, now);
      case Background(b) => BackgroundKeepsTurn(t, b);
      case _ =>
    }
  }

  lemma {:induction false} SubmittedGrows(t: Turn, run: seq<TurnAction>)
    requires TurnRun(t, run)
    ensures t.sys.submitted <= TurnAfter(t, run).sys.submitted
    decreases |run|
  {
    if run != [] {
      SubmittedGrows(TurnStep(t, run[0]), run[1..]);
    }
  }

  lemma {:induction false} RunKeepsTurn(t: Turn, run: seq<TurnAction>)
    requires TurnInv(t) && TurnRun(t, run) && EqualOnlyTogether(TurnAfter(t, run).sys.submitted)
    ensures TurnInv(TurnAfter(t, run))
    decreases |run|
  {
    if run != [] {
      var u := TurnStep(t, run[0]);
      SubmittedGrows(u, run[1..]);
      var whole := TurnAfter(t, run).sys.submitted;
      assert whole == u.sys.submitted + whole[|u.sys.submitted|..];
      PrefixTogether(u.sys.submitted, whole[|u.sys.submitted|..]);
      StepKeepsTurn(t, run[0]);
      RunKeepsTurn(u, run[1..]);
    }
  }

  /**
   Every chunk precedes the ready event. When the ready event of a finalized turn has been sent, the log is
   as long as it was at that moment and no chunk can follow. The placeholder assumption is the one of
   `GeneratorTextsAreSafe`.
   */
  lemma ReadyComesLast(throttle: int, run: seq<TurnAction>)
    requires TurnRun(NewTurn(throttle), run)
    requires var t := TurnAfter(NewTurn(throttle), run);
      EqualOnlyTogether(t.sys.submitted) && t.stage.Ready? && t.stage.finalized.Some?
    ensures var t := TurnAfter(NewTurn(throttle), run);
      |t.sys.log| == t.stage.chunksBefore && !MayFollow(t.sys)
  {
    InitialInv(throttle);
    RunKeepsTurn(NewTurn(throttle), run);
  }

  /**
   When `FinalizeAsync` has returned, the final text was the last one attempted and it is the emitted text
   exactly when that attempt was acknowledged, in which case it is also the last chunk.
   */
  lemma FinalTextIsOnTheWire(throttle: int, run: seq<TurnAction>)
    requires TurnRun(NewTurn(throttle), run)
    requires var t := TurnAfter(NewTurn(throttle), run);
      EqualOnlyTogether(t.sys.submitted) && t.stage.Finalized? && t.waiting == Free
    ensures var t := TurnAfter(NewTurn(throttle), run);
      && !MayFollow(t.sys) && t.sys.lastAttempt.Some?
      && TextAt(t.sys, t.sys.lastAttempt.value.serial, t.stage.text)
      && (t.sys.sink.lastEmitted == t.stage.text <==> t.sys.lastAttempt.value.acked)
      && (t.sys.lastAttempt.value.acked ==> t.sys.log != [] && t.sys.log[|t.sys.log| - 1].text == t.stage.text)
  {
    InitialInv(throttle);
    RunKeepsTurn(NewTurn(throttle), run);
  }

  /** A call that waits can always be resumed once the background has come to rest. */
  lemma NobodyWaitsForever(throttle: int, run: seq<TurnAction>)
    requires TurnRun(NewTurn(throttle), run)
    requires var t := TurnAfter(NewTurn(throttle), run);
      && EqualOnlyTogether(t.sys.submitted) && t.stage.Finalized? && t.waiting != Free
      && t.sys.loops == [] && t.sys.releasing == {}
    ensures CanResume(TurnAfter(NewTurn(throttle), run))
  {
    InitialInv(throttle);
    RunKeepsTurn(NewTurn(throttle), run);
  }

  lemma TurnCons(t: Turn, a: TurnAction, rest: seq<TurnAction>)
    requires TurnEnabled(t, a) && TurnRun(TurnStep(t, a), rest)
    ensures TurnRun(t, [a] + rest) && TurnAfter(t, [a] + rest) == TurnAfter(TurnStep(t, a), rest)
  {
  }

  lemma {:induction false} TurnAppend(t: Turn, run: seq<TurnAction>, more: seq<TurnAction>)
    requires TurnRun(t, run) && TurnRun(TurnAfter(t, run), more)
    ensures TurnRun(t, run + more) && TurnAfter(t, run + more) == TurnAfter(TurnAfter(t, run), more)
    decreases |run|
  {
    if run == [] {
      assert run + more == more;
    } else {
      TurnAppend(TurnStep(t, run[0]), run[1..], more);
      assert (run + more)[1..] == run[1..] + more;
    }
  }

  /** The first delta has reached the actor. */
  function FirstDelivered(): Turn {
    Turn(System(Sink(10, "", MIN_TIME, 0, "", false, None, true, false, None), [Loop(2, "a", 0, Delivered(true), false)],
                {}, 0, 0, None, ["a"], [Chunk("a", 0, true)], 3, {}, {}, {}),
         Generating, OnLoop(2))
  }

  lemma FirstDelivery() returns (run: seq<TurnAction>)
    ensures TurnRun(NewTurn(10), run) && TurnAfter(NewTurn(10), run) == FirstDelivered()
  {
    assert !IsBlank("a") by { assert !IsWhiteSpace("a"[0]); }
    var t0 := NewTurn(10);
    var t1 := TurnStep(t0, Delta("a", 100));
    TurnCons(t1, Background(Deliver(0, true)), []);
    run := [Background(Deliver(0, true))] + [];
    TurnCons(t0, Delta("a", 100), run);
    run := [Delta("a", 100)] + run;
  }

  lemma FirstAcknowledgement() returns (run: seq<TurnAction>)
    ensures TurnRun(FirstDelivered(), run)
    ensures TurnAfter(FirstDelivered(), run) ==
      Turn(System(Sink(10, "a", 100, 1, "", false, None, false, false, None), [], {}, 0, 0,
                  Some(Attempt(0, true)), ["a"], [Chunk("a", 0, true)], 3, {}, {}, {}),
           Generating, Free)
  {
    var t2 := FirstDelivered();
    var t3 := TurnStep(t2, Background(Record(0, 100)));
    var t4 := TurnStep(t3, Background(Poll(0)));
    TurnCons(t4, Resume, []);
    run := [Resume] + [];
    TurnCons(t3, Background(Poll(0)), run);
    run := [Background(Poll(0))] + run;
    TurnCons(t2, Background(Record(0, 100)), run);
    run := [Background(Record(0, 100))] + run;
  }

  /** The first delta goes out and is acknowledged at once. */
  lemma FirstDelta() returns (run: seq<TurnAction>)
    ensures TurnRun(NewTurn(10), run)
    ensures TurnAfter(NewTurn(10), run) ==
      Turn(System(Sink(10, "a", 100, 1, "", false, None, false, false, None), [], {}, 0, 0,
                  Some(Attempt(0, true)), ["a"], [Chunk("a", 0, true)], 3, {}, {}, {}),
           Generating, Free)
  {
    var sent := FirstDelivery();
    var acknowledged := FirstAcknowledgement();
    TurnAppend(NewTurn(10), sent, acknowledged);
    run := sent + acknowledged;
  }

  /**
   Without finalization - the generator threw, or the reply is an interactive card - a chunk can reach the
   actor after the ready event: the sink is only disposed once the ready event is out.
   */
  lemma ChunkAfterReady() returns (before: seq<TurnAction>, late: seq<TurnAction>)
    ensures TurnRun(NewTurn(10), before) && TurnAfter(NewTurn(10), before).stage == Ready(None, 1)
    ensures TurnRun(TurnAfter(NewTurn(10), before), late)
    ensures |TurnAfter(TurnAfter(NewTurn(10), before), late).sys.log| == 2
  {
    assert !IsBlank("ab") by { assert !IsWhiteSpace("ab"[0]); }
    var first := FirstDelta();
    var t5 := TurnAfter(NewTurn(10), first);
    var t6 := TurnStep(t5, Delta("ab", 101));
    var t7 := TurnStep(t6, Generate(Threw));
    var t8 := TurnStep(t7, SendReady);
    TurnCons(t7, SendReady, []);
    TurnCons(t6, Generate(Threw), [SendReady]);
    TurnCons(t5, Delta("ab", 101), [Generate(Threw)] + [SendReady]);
    before := [Delta("ab", 101)] + ([Generate(Threw)] + [SendReady]);
    TurnAppend(NewTurn(10), first, before);
    before := first + before;
    var t9 := TurnStep(t8, Background(Fire(3)));
    TurnCons(t9, Background(Deliver(0, true)), []);
    TurnCons(t8, Background(Fire(3)), [Background(Deliver(0, true))]);
    late := [Background(Fire(3))] + [Background(Deliver(0, true))];
  }

  lemma TurnStepKeepsInv(t: Turn, a: TurnAction)
    requires Inv(t.sys) && TurnEnabled(t, a)
    ensures Inv(TurnStep(t, a).sys)
  {
    match a
    case Delta(text, now) =>
      if !IsBlank(text) {
        StepKeepsInv(t.sys, Flush(text, false, now, false));
      }
    case CallFinalize(now) => StepKeepsInv(t.sys, Flush(t.stage.finalText.value, true, now, false));
    case Background(b) => StepKeepsInv(t.sys, b);
    case CloseSink => StepKeepsInv(t.sys, DisposeSink);
    case Generate(_) =>
    case Resume =>
    case SendReady =>
  }

  lemma {:induction false} TurnRunKeepsInv(t: Turn, run: seq<TurnAction>)
    requires Inv(t.sys) && TurnRun(t, run)
    ensures Inv(TurnAfter(t, run).sys)
    decreases |run|
  {
    if run != [] {
      TurnStepKeepsInv(t, run[0]);
      TurnRunKeepsInv(TurnStep(t, run[0]), run[1..]);
    }
  }

  /** After the ready event only the background goes on, until the sink is closed. */
  lemma ReadyStep(t: Turn, a: TurnAction)
    requires Inv(t.sys) && t.stage.Ready? && TurnEnabled(t, a) && !MayFollow(t.sys)
    ensures var u := TurnStep(t, a); u.stage == t.stage && !MayFollow(u.sys) && u.sys.log == t.sys.log
  {
    match a
    case Background(b) => QuietStep(t.sys, b);
    case CloseSink => QuietStep(t.sys, DisposeSink);
    case Resume =>
  }

  lemma {:induction false} ReadyRun(t: Turn, run: seq<TurnAction>)
    requires Inv(t.sys) && t.stage.Ready? && TurnRun(t, run) && !MayFollow(t.sys)
    ensures TurnAfter(t, run).sys.log == t.sys.log
    decreases |run|
  {
    if run != [] {
      ReadyStep(t, run[0]);
      TurnStepKeepsInv(t, run[0]);
      ReadyRun(TurnStep(t, run[0]), run[1..]);
    }
  }

  /** A run of the sink by itself is a run of the turn. */
  lemma {:induction false} BackgroundRun(t: Turn, run: seq<Action>) returns (turns: seq<TurnAction>)
    requires Run(t.sys, run) && Silent(run) && Uninterrupted(run)
    ensures TurnRun(t, turns) && TurnAfter(t, turns).sys == After(t.sys, run)
    decreases |run|
  {
    turns := [];
    if run != [] {
      var u := TurnStep(t, Background(run[0]));
      var rest := BackgroundRun(u, run[1..]);
      TurnCons(t, Background(run[0]), rest);
      turns := [Background(run[0])] + rest;
    }
  }

  /** In every run: a chunk can follow the ready event exactly when the sink `MayFollow` at that moment. */
  lemma ChunkFollowsReadyExactly(throttle: int, run: seq<TurnAction>)
    requires TurnRun(NewTurn(throttle), run) && TurnAfter(NewTurn(throttle), run).stage.Ready?
    ensures var t := TurnAfter(NewTurn(throttle), run);
      MayFollow(t.sys) <==> exists more :: TurnRun(t, more) && |TurnAfter(t, more).sys.log| > |t.sys.log|
  {
    InitialInv(throttle);
    TurnRunKeepsInv(NewTurn(throttle), run);
    var t := TurnAfter(NewTurn(throttle), run);
    if MayFollow(t.sys) {
      var loud := LoudRun(t.sys);
      var more := BackgroundRun(t, loud);
      assert TurnRun(t, more) && |TurnAfter(t, more).sys.log| > |t.sys.log|;
    } else {
      forall more | TurnRun(t, more)
        ensures TurnAfter(t, more).sys.log == t.sys.log
      {
        ReadyRun(t, more);
      }
    }
  }

  /** The turn has finalized the sink. */
  predicate HasFinalized(t: Turn) {
    t.stage.Finalized? || (t.stage.Ready? && t.stage.finalized.Some?)
  }

  /** The ready event of a turn counts as finalized exactly when the run has called the finalizer. */
  lemma {:induction false} FinalizedExactly(t: Turn, run: seq<TurnAction>)
    requires TurnRun(t, run)
    ensures HasFinalized(TurnAfter(t, run)) <==> HasFinalized(t) || exists i :: 0 <= i < |run| && run[i].CallFinalize?
    decreases |run|
  {
    if run != [] {
      var (u, rest) := (TurnStep(t, run[0]), run[1..]);
      FinalizedExactly(u, rest);
      assert HasFinalized(u) <==> HasFinalized(t) || run[0].CallFinalize?;
      assert forall i :: 0 <= i < |rest| ==> rest[i] == run[i + 1];
      if i :| 0 < i < |run| && run[i].CallFinalize? {
        assert rest[i - 1].CallFinalize?;
      }
    }
  }

  // ---- Where the submitted texts come from ----

  /** The accumulated output after each streamed delta. */
  function Accumulated(output: string, deltas: seq<string>): seq<string>
    decreases |deltas|
  {
    if deltas == [] then []
    else
      var output := output + deltas[0];
      [output] + Accumulated(output, deltas[1..])
  }

  function NonBlank(texts: seq<string>): seq<string> {
    if texts == [] then []
    else (if IsBlank(texts[0]) then [] else [texts[0]]) + NonBlank(texts[1..])
  }

  /** What a turn submits: the placeholder, every non-blank accumulated text, and the complete text again. */
  function GeneratorTexts(placeholder: string, deltas: seq<string>): seq<string> {
    var growing := NonBlank(Accumulated("", deltas));
    NonBlank([placeholder]) + growing + if growing == [] then [] else [growing[|growing| - 1]]
  }

  ghost predicate Growing(texts: seq<string>) {
    forall i, j :: 0 <= i < j < |texts| ==> |texts[i]| < |texts[j]|
  }

  lemma {:induction false} AccumulatedGrows(output: string, deltas: seq<string>)
    requires forall i :: 0 <= i < |deltas| ==> deltas[i] != ""
    ensures Growing(NonBlank(Accumulated(output, deltas)))
    ensures forall i :: 0 <= i < |NonBlank(Accumulated(output, deltas))| ==>
              |output| < |NonBlank(Accumulated(output, deltas))[i]|
    decreases |deltas|
  {
    if deltas != [] {
      AccumulatedGrows(output + deltas[0], deltas[1..]);
    }
  }

  lemma RepeatedLastIsSafe(growing: seq<string>)
    requires Growing(growing) && growing != []
    ensures EqualOnlyTogether(growing + [growing[|growing| - 1]])
  {
  }

  lemma PlaceholderIsSafe(placeholder: string, growing: seq<string>)
    requires Growing(growing) && growing != [] && placeholder !in growing[1..]
    ensures EqualOnlyTogether([placeholder] + (growing + [growing[|growing| - 1]]))
  {
    RepeatedLastIsSafe(growing);
    var rest := growing + [growing[|growing| - 1]];
    var texts := [placeholder] + rest;
    forall i, k, j | 0 <= i <= k <= j < |texts| && texts[i] == texts[j]
      ensures texts[k] == texts[i]
    {
      if 0 < i {
        OnlyEmittedBetween(rest, i - 1, k - 1, j - 1);
      } else if 0 < j {
        assert rest[j - 1] !in growing[1..];
        assert forall m :: 1 <= m < |growing| ==> growing[m] in growing[1..];
        assert j == 1 || (j == 2 && |growing| == 1);
      }
    }
  }

  lemma PlaceholderRepeats(placeholder: string, growing: seq<string>)
    requires Growing(growing) && growing != [] && placeholder in growing[1..]
    ensures !EqualOnlyTogether([placeholder] + (growing + [growing[|growing| - 1]]))
  {
    var k :| 1 <= k < |growing| && growing[k] == placeholder;
    var texts := [placeholder] + (growing + [growing[|growing| - 1]]);
    assert texts[1] == growing[0] && texts[k + 1] == placeholder;
    if EqualOnlyTogether(texts) {
      OnlyEmittedBetween(texts, 0, 1, k + 1);
      assert false;
    }
  }

  lemma SafetyOfGrowingTexts(first: seq<string>, growing: seq<string>)
    requires Growing(growing) && |first| <= 1
    ensures EqualOnlyTogether(first + growing + if growing == [] then [] else [growing[|growing| - 1]])
      <==> first == [] || growing == [] || first[0] !in growing[1..]
  {
    if growing == [] {
      assert first + growing + [] == first;
    } else {
      var rest := growing + [growing[|growing| - 1]];
      assert first + growing + [growing[|growing| - 1]] == first + rest;
      if first == [] {
        assert first + rest == rest;
        RepeatedLastIsSafe(growing);
      } else if first[0] in growing[1..] {
        assert first == [first[0]];
        PlaceholderRepeats(first[0], growing);
      } else {
        assert first == [first[0]];
        PlaceholderIsSafe(first[0], growing);
      }
    }
  }

  /**
   Streamed deltas are never empty, so the accumulated texts grow; the only way to submit equal texts apart
   from each other is a placeholder that the reply later repeats after its first text.
   */
  lemma GeneratorTextsAreSafe(placeholder: string, deltas: seq<string>)
    requires forall i :: 0 <= i < |deltas| ==> deltas[i] != ""
    ensures var growing := NonBlank(Accumulated("", deltas));
      EqualOnlyTogether(GeneratorTexts(placeholder, deltas))
      <==> IsBlank(placeholder) || growing == [] || placeholder !in growing[1..]
  {
    AccumulatedGrows("", deltas);
    assert NonBlank([placeholder]) == if IsBlank(placeholder) then [] else [placeholder];
    SafetyOfGrowingTexts(NonBlank([placeholder]), NonBlank(Accumulated("", deltas)));
  }
}
