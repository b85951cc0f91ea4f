/** The scheduled skill runner: what its handlers do, call by call, when timers fire and calls throw between them. */
module SkillRunner {
  import opened Text

  const MAX_RETRY_ATTEMPTS := 1

  /** A trigger; `retry` marks those that the runner scheduled for itself after a failure. */
  datatype Command = Command(attempt: int, retry: bool)

  /** A callback armed at the callback service, which keeps one per callback id. */
  datatype Callback = Callback(generation: nat, command: Command)

  /** An awaited call returns, or throws without its effect, or throws after it. */
  datatype Outcome = Returns | ThrowsBefore | ThrowsAfter

  /** What happens around one awaited call: armed callbacks may fire first. */
  datatype Beat = Beat(triggerFires: bool, retryFires: bool, outcome: Outcome)

  /**
   The runner's persisted state, its two leases, the two callback slots of the service, the triggers that have
   fired and wait for a turn, and what has been done so far.
   */
  datatype Runner = Runner(
    enabled: bool,
    cron: string,
    nextRunAt: Option<int>,
    lastRunAt: Option<int>,
    errorCount: nat,
    triggerLease: Option<nat>,
    retryLease: Option<nat>,
    triggerSlot: Option<Callback>,
    retrySlot: Option<Callback>,
    inbox: seq<Command>,
    executions: nat,
    originals: seq<int>)

  /** What an awaited call does when it takes effect. */
  datatype Effect =
    | Nothing
    | Completed(at: int)
    | Failed(at: int)
    | NextRun(at: int)
    | Initialized(on: bool, cron: string)
    | Disabled
    | Enabled
    | CancelTrigger(lease: nat)
    | CancelRetry(lease: nat)
    | ArmTrigger
    | ArmRetry(attempt: int)

  // ---- The callback service ----

  /** Cancelling takes effect only on the generation that the lease names. */
  function Cancelled(slot: Option<Callback>, lease: nat): Option<Callback> {
    if slot.Some? && slot.value.generation == lease then None else slot
  }

  /** Arming replaces a callback that is still armed under the same id. */
  function Armed(slot: Option<Callback>, command: Command): Option<Callback> {
    Some(Callback(if slot.Some? then slot.value.generation + 1 else 1, command))
  }

  function Fire(r: Runner, b: Beat): Runner {
    var r1 := if b.triggerFires && r.triggerSlot.Some?
              then r.(inbox := r.inbox + [r.triggerSlot.value.command], triggerSlot := None) else r;
    if b.retryFires && r1.retrySlot.Some?
    then r1.(inbox := r1.inbox + [r1.retrySlot.value.command], retrySlot := None) else r1
  }

  predicate Fires(r: Runner, b: Beat) {
    (b.triggerFires && r.triggerSlot.Some?) || (b.retryFires && r.retrySlot.Some?)
  }

  function Apply(r: Runner, e: Effect): Runner {
    match e
    case Nothing => r
    case Completed(at) => r.(lastRunAt := Some(at), errorCount := 0)
    case Failed(at) => r.(lastRunAt := Some(at), errorCount := r.errorCount + 1)
    case NextRun(at) => r.(nextRunAt := Some(at))
    case Initialized(on, cron) => r.(enabled := on, cron := cron)
    case Disabled => r.(enabled := false, nextRunAt := None)
    case Enabled => r.(enabled := true)
    case CancelTrigger(lease) => r.(triggerSlot := Cancelled(r.triggerSlot, lease))
    case CancelRetry(lease) => r.(retrySlot := Cancelled(r.retrySlot, lease))
    case ArmTrigger => r.(triggerSlot := Armed(r.triggerSlot, Command(0, false)))
    case ArmRetry(attempt) => r.(retrySlot := Armed(r.retrySlot, Command(attempt, true)))
  }

  // ---- Turns ----

  /**
   A turn under way: how many calls were awaited, whether an exception is on its way up, which calls took effect,
   and whether a callback fired.
   */
  datatype Turn = Turn(runner: Runner, at: nat, ok: bool, taken: seq<Effect>, fired: bool)

  function Start(r: Runner): Turn {
    Turn(r, 0, true, [], false)
  }

  function BeatAt(beats: seq<Beat>, at: nat): Beat {
    if at < |beats| then beats[at] else Beat(false, false, Returns)
  }

  function Await(t: Turn, beats: seq<Beat>, e: Effect): Turn {
    if !t.ok then t
    else
      var b := BeatAt(beats, t.at);
      var r := Fire(t.runner, b);
      Turn(if b.outcome.ThrowsBefore? then r else Apply(r, e), t.at + 1, b.outcome.Returns?,
           if b.outcome.ThrowsBefore? then t.taken else t.taken + [e], t.fired || Fires(t.runner, b))
  }

  /** `CancelRetryLeaseAsync` */
  function CancelRetryLease(t: Turn, beats: seq<Beat>): Turn {
    if !t.ok || t.runner.retryLease.None? then t
    else
      var u := Await(t, beats, CancelRetry(t.runner.retryLease.value));
      if u.ok then u.(runner := u.runner.(retryLease := None)) else u
  }

  /** `ScheduleRetryAsync` */
  function ScheduleRetry(t: Turn, beats: seq<Beat>, attempt: int): Turn {
    var u := Await(CancelRetryLease(t, beats), beats, ArmRetry(attempt));
    if u.ok && u.runner.retrySlot.Some?
    then u.(runner := u.runner.(retryLease := Some(u.runner.retrySlot.value.generation))) else u
  }

  /** `ChannelScheduleRunner.CancelAsync` */
  function CancelTriggerLease(t: Turn, beats: seq<Beat>): Turn {
    if !t.ok || t.runner.triggerLease.None? then t
    else
      var u := Await(t, beats, CancelTrigger(t.runner.triggerLease.value));
      if u.ok then u.(runner := u.runner.(triggerLease := None)) else u
  }

  /** `ChannelScheduleRunner.ScheduleNextRunAsync`; `next` is the next occurrence, if the cron expression has one. */
  function ScheduleNextRun(t: Turn, beats: seq<Beat>, next: Option<int>): Turn {
    if !t.ok || !t.runner.enabled || IsBlank(t.runner.cron) || next.None? then t
    else
      var u := if t.runner.triggerLease.Some? then Await(t, beats, CancelTrigger(t.runner.triggerLease.value)) else t;
      var v := Await(u, beats, ArmTrigger);
      var w := if v.ok && v.runner.triggerSlot.Some?
               then v.(runner := v.runner.(triggerLease := Some(v.runner.triggerSlot.value.generation))) else v;
      Await(w, beats, NextRun(next.value))
  }

  /** Scheduling the next run and reporting to the catalog, as every handler but one ends. */
  function Finish(t: Turn, beats: seq<Beat>, next: Option<int>): Turn {
    Await(ScheduleNextRun(t, beats, next), beats, Nothing)
  }

  function Counted(r: Runner): Turn {
    Start(r.(executions := r.executions + 1))
  }

  function AwaitTwo(t: Turn, beats: seq<Beat>, a: Effect, b: Effect): Turn {
    Await(Await(t, beats, a), beats, b)
  }

  function Execute(r: Runner, now: int, beats: seq<Beat>): Turn {
    AwaitTwo(Counted(r), beats, Nothing, Completed(now))
  }

  /** The body of the `try` in `HandleTriggerAsync`. */
  function TryExecute(r: Runner, now: int, next: Option<int>, beats: seq<Beat>): Turn {
    Finish(CancelRetryLease(Execute(r, now, beats), beats), beats, next)
  }

  /** The body of its `catch`. */
  function Recover(t: Turn, attempt: int, now: int, next: Option<int>, beats: seq<Beat>): Turn {
    if attempt < MAX_RETRY_ATTEMPTS then ScheduleRetry(t, beats, attempt + 1)
    else
      var notified := Await(Await(t, beats, Failed(now)), beats, Nothing);
      Finish(notified, beats, next)
  }

  /** `HandleTriggerAsync` */
  function HandleTrigger(r: Runner, command: Command, now: int, next: Option<int>, beats: seq<Beat>): Turn {
    if !r.enabled then Start(r)
    else
      var t := TryExecute(r, now, next, beats);
      if t.ok then t else Recover(t.(ok := true), command.attempt, now, next, beats)
  }

  function HandleInitialize(r: Runner, content: string, on: bool, cron: string, next: Option<int>, beats: seq<Beat>): Turn {
    if IsBlank(content) then Start(r)
    else
      var initialized := Await(Start(r), beats, Initialized(on, Trim(cron)));
      Finish(initialized, beats, next)
  }

  function HandleDisable(r: Runner, beats: seq<Beat>): Turn {
    var cancelled := CancelRetryLease(CancelTriggerLease(Start(r), beats), beats);
    Await(Await(cancelled, beats, Disabled), beats, Nothing)
  }

  function HandleEnable(r: Runner, next: Option<int>, beats: seq<Beat>): Turn {
    var enabled := if r.enabled then Start(r) else Await(Start(r), beats, Enabled);
    Finish(enabled, beats, next)
  }

  /** A new activation has no leases; it revives the schedule when the next run is missing or past. */
  function HandleActivate(r: Runner, now: int, next: Option<int>, beats: seq<Beat>): Turn {
    var activated := Start(r.(triggerLease := None, retryLease := None));
    if !r.enabled || IsBlank(r.cron) || (r.nextRunAt.Some? && r.nextRunAt.value > now) then activated
    else ScheduleNextRun(activated, beats, next)
  }

  // ---- Runs ----

  datatype Action =
    | Receive(attempt: int)
    | Tick(beat: Beat)
    | Deliver(now: int, next: Option<int>, beats: seq<Beat>)
    | Initialize(content: string, on: bool, newCron: string, next: Option<int>, beats: seq<Beat>)
    | Disable(beats: seq<Beat>)
    | Enable(next: Option<int>, beats: seq<Beat>)
    | Activate(now: int, next: Option<int>, beats: seq<Beat>)

  /** The runner with its first waiting trigger taken out, and noted if it is not a retry. */
  function Taken(r: Runner): Runner
    requires r.inbox != []
  {
    var command := r.inbox[0];
    r.(inbox := r.inbox[1..], originals := if command.retry then r.originals else r.originals + [command.attempt])
  }

  /** The turn that an action amounts to. */
  function Handle(r: Runner, a: Action): Turn {
    match a
    case Receive(attempt) => Start(r.(inbox := r.inbox + [Command(attempt, false)]))
    case Tick(beat) => Start(r).(runner := Fire(r, beat), fired := Fires(r, beat))
    case Deliver(now, next, beats) =>
      if r.inbox == [] then Start(r) else HandleTrigger(Taken(r), r.inbox[0], now, next, beats)
    case Initialize(content, on, cron, next, beats) => HandleInitialize(r, content, on, cron, next, beats)
    case Disable(beats) => HandleDisable(r, beats)
    case Enable(next, beats) => HandleEnable(r, next, beats)
    case Activate(now, next, beats) => HandleActivate(r, now, next, beats)
  }

  function Step(r: Runner, a: Action): Runner {
    Handle(r, a).runner
  }

  /** The handler of this action lets no exception out. */
  predicate Succeeds(r: Runner, a: Action) {
    Handle(r, a).ok
  }

  function Run(r: Runner, actions: seq<Action>): Runner
    decreases |actions|
  {
    if actions == [] then r else Run(Step(r, actions[0]), actions[1..])
  }

  const NEW_RUNNER := Runner(false, "", None, None, 0, None, None, None, None, [], 0, [])

  // ---- The retry potential ----

  /** How many executions a trigger can still lead to. */
  function Weight(attempt: int): nat {
    if attempt < MAX_RETRY_ATTEMPTS then MAX_RETRY_ATTEMPTS - attempt + 1 else 1
  }

  function CommandWeight(command: Command): nat {
    if command.retry then Weight(command.attempt) else 0
  }

  function InboxWeight(inbox: seq<Command>): nat {
    if inbox == [] then 0 else CommandWeight(inbox[0]) + InboxWeight(inbox[1..])
  }

  function SlotWeight(slot: Option<Callback>): nat {
    if slot.Some? then CommandWeight(slot.value.command) else 0
  }

  /** The weight of the retries that may still come, whether or not they were cancelled after they fired. */
  function Outstanding(r: Runner): nat {
    InboxWeight(r.inbox) + SlotWeight(r.triggerSlot) + SlotWeight(r.retrySlot)
  }

  function Budget(originals: seq<int>): nat {
    if originals == [] then 0 else Weight(originals[0]) + Budget(originals[1..])
  }

  function Spent(r: Runner): nat {
    r.executions + Outstanding(r)
  }

  lemma {:induction false} InboxWeightAppend(inbox: seq<Command>, command: Command)
    ensures InboxWeight(inbox + [command]) == InboxWeight(inbox) + CommandWeight(command)
  {
    if inbox == [] {
      assert inbox + [command] == [command];
    } else {
      assert (inbox + [command])[1..] == inbox[1..] + [command];
      InboxWeightAppend(inbox[1..], command);
    }
  }

  lemma {:induction false} BudgetAppend(originals: seq<int>, attempt: int)
    ensures Budget(originals + [attempt]) == Budget(originals) + Weight(attempt)
  {
    if originals == [] {
      assert originals + [attempt] == [attempt];
    } else {
      assert (originals + [attempt])[1..] == originals[1..] + [attempt];
      BudgetAppend(originals[1..], attempt);
    }
  }

  lemma FireKeeps(r: Runner, b: Beat)
    ensures var f := Fire(r, b);
      Spent(f) == Spent(r) && f.originals == r.originals && f.executions == r.executions && f.enabled == r.enabled
  {
    if r.triggerSlot.Some? {
      InboxWeightAppend(r.inbox, r.triggerSlot.value.command);
    }
    if r.retrySlot.Some? {
      InboxWeightAppend(r.inbox, r.retrySlot.value.command);
      if r.triggerSlot.Some? {
        InboxWeightAppend(r.inbox + [r.triggerSlot.value.command], r.retrySlot.value.command);
      }
    }
  }

  function Cost(e: Effect): nat {
    if e.ArmRetry? then Weight(e.attempt) else 0
  }

  /** No more than `extra` is spent, and nothing is executed. */
  ghost predicate Within(u: Runner, r: Runner, extra: nat) {
    Spent(u) <= Spent(r) + extra && u.originals == r.originals && u.executions == r.executions
  }

  lemma AwaitSpends(t: Turn, beats: seq<Beat>, e: Effect)
    ensures Within(Await(t, beats, e).runner, t.runner, Cost(e))
  {
    FireKeeps(t.runner, BeatAt(beats, t.at));
  }

  lemma CancelRetryLeaseSpends(t: Turn, beats: seq<Beat>)
    ensures Within(CancelRetryLease(t, beats).runner, t.runner, 0)
  {
    if t.runner.retryLease.Some? {
      AwaitSpends(t, beats, CancelRetry(t.runner.retryLease.value));
    }
  }

  lemma FinishSpends(t: Turn, beats: seq<Beat>, next: Option<int>)
    ensures Within(ScheduleNextRun(t, beats, next).runner, t.runner, 0)
    ensures Within(Finish(t, beats, next).runner, t.runner, 0)
  {
    if !(!t.ok || !t.runner.enabled || IsBlank(t.runner.cron) || next.None?) {
      var u := if t.runner.triggerLease.Some? then Await(t, beats, CancelTrigger(t.runner.triggerLease.value)) else t;
      if t.runner.triggerLease.Some? {
        AwaitSpends(t, beats, CancelTrigger(t.runner.triggerLease.value));
      }
      AwaitSpends(u, beats, ArmTrigger);
      var v := Await(u, beats, ArmTrigger);
      var w := if v.ok && v.runner.triggerSlot.Some?
               then v.(runner := v.runner.(triggerLease := Some(v.runner.triggerSlot.value.generation))) else v;
      AwaitSpends(w, beats, NextRun(next.value));
    }
    AwaitSpends(ScheduleNextRun(t, beats, next), beats, Nothing);
  }

  lemma WithinWithin(a: Runner, b: Runner, c: Runner, x: nat, y: nat)
    requires Within(a, b, x) && Within(b, c, y)
    ensures Within(a, c, x + y)
  {
  }

  lemma TwoAwaitsSpend(t: Turn, beats: seq<Beat>, a: Effect, b: Effect)
    ensures Within(AwaitTwo(t, beats, a, b).runner, t.runner, Cost(a) + Cost(b))
  {
    var u := Await(t, beats, a);
    AwaitSpends(t, beats, a);
    AwaitSpends(u, beats, b);
    WithinWithin(Await(u, beats, b).runner, u.runner, t.runner, Cost(b), Cost(a));
  }

  lemma TryExecuteSpends(r: Runner, now: int, next: Option<int>, beats: seq<Beat>)
    ensures Within(TryExecute(r, now, next, beats).runner, r.(executions := r.executions + 1), 0)
  {
    var completed := Execute(r, now, beats);
    TwoAwaitsSpend(Counted(r), beats, Nothing, Completed(now));
    CancelRetryLeaseSpends(completed, beats);
    FinishSpends(CancelRetryLease(completed, beats), beats, next);
  }

  lemma RecoverSpends(t: Turn, attempt: int, now: int, next: Option<int>, beats: seq<Beat>)
    ensures Within(Recover(t, attempt, now, next, beats).runner, t.runner, Weight(attempt) - 1)
  {
    if attempt < MAX_RETRY_ATTEMPTS {
      CancelRetryLeaseSpends(t, beats);
      AwaitSpends(CancelRetryLease(t, beats), beats, ArmRetry(attempt + 1));
    } else {
      var failed := Await(t, beats, Failed(now));
      AwaitSpends(t, beats, Failed(now));
      AwaitSpends(failed, beats, Nothing);
      FinishSpends(Await(failed, beats, Nothing), beats, next);
    }
  }

  /** One trigger never costs more than its weight, whichever of the calls throws. */
  lemma TriggerSpends(r: Runner, command: Command, now: int, next: Option<int>, beats: seq<Beat>)
    ensures var u := HandleTrigger(r, command, now, next, beats).runner;
      && Spent(u) <= Spent(r) + Weight(command.attempt) && u.originals == r.originals
      && u.executions == r.executions + if r.enabled then 1 else 0
  {
    if r.enabled {
      TryExecuteSpends(r, now, next, beats);
      var t := TryExecute(r, now, next, beats);
      if !t.ok {
        RecoverSpends(t.(ok := true), command.attempt, now, next, beats);
      }
    }
  }

  lemma OthersSpend(r: Runner, a: Action)
    requires !a.Deliver?
    ensures Within(Step(r, a), r, 0)
  {
    match a
    case Receive(attempt) => InboxWeightAppend(r.inbox, Command(attempt, false));
    case Tick(beat) => FireKeeps(r, beat);
    case Initialize(content, on, cron, next, beats) =>
      AwaitSpends(Start(r), beats, Initialized(on, Trim(cron)));
      FinishSpends(Await(Start(r), beats, Initialized(on, Trim(cron))), beats, next);
    case Disable(beats) => DisableSpends(r, beats);
    case Enable(next, beats) =>
      AwaitSpends(Start(r), beats, Enabled);
      FinishSpends(if r.enabled then Start(r) else Await(Start(r), beats, Enabled), beats, next);
    case Activate(now, next, beats) =>
      FinishSpends(Start(r.(triggerLease := None, retryLease := None)), beats, next);
  }

  lemma DisableSpends(r: Runner, beats: seq<Beat>)
    ensures Within(HandleDisable(r, beats).runner, r, 0)
  {
    if r.triggerLease.Some? {
      AwaitSpends(Start(r), beats, CancelTrigger(r.triggerLease.value));
    }
    var t := CancelTriggerLease(Start(r), beats);
    CancelRetryLeaseSpends(t, beats);
    var cancelled := CancelRetryLease(t, beats);
    AwaitSpends(cancelled, beats, Disabled);
    AwaitSpends(Await(cancelled, beats, Disabled), beats, Nothing);
  }

  lemma StepKeepsPotential(r: Runner, a: Action)
    requires Spent(r) <= Budget(r.originals)
    ensures Spent(Step(r, a)) <= Budget(Step(r, a).originals)
  {
    if a.Deliver? && r.inbox != [] {
      TriggerSpends(Taken(r), r.inbox[0], a.now, a.next, a.beats);
      BudgetAppend(r.originals, r.inbox[0].attempt);
    } else if !a.Deliver? {
      OthersSpend(r, a);
    }
  }

  /**
   Over every run, executions and the retries still outstanding stay within what the original triggers
   grant, whichever calls throw and whichever cancelled callbacks fire all the same.
   */
  lemma {:induction false} RetriesAreBounded(r: Runner, actions: seq<Action>)
    requires Spent(r) <= Budget(r.originals)
    ensures var end := Run(r, actions); end.executions + Outstanding(end) <= Budget(end.originals)
    decreases |actions|
  {
    if actions != [] {
      StepKeepsPotential(r, actions[0]);
      RetriesAreBounded(Step(r, actions[0]), actions[1..]);
    }
  }

  /** How far the attempts of these triggers lie below zero, together. */
  function Deficit(originals: seq<int>): nat {
    if originals == [] then 0 else (if originals[0] < 0 then -originals[0] else 0) + Deficit(originals[1..])
  }

  lemma {:induction false} BudgetBound(originals: seq<int>)
    ensures Budget(originals) <= (MAX_RETRY_ATTEMPTS + 1) * |originals| + Deficit(originals)
  {
    if originals != [] {
      BudgetBound(originals[1..]);
    }
  }

  /** The attempt of the trigger that an action delivers, unless it is a retry. */
  function OriginalTrigger(r: Runner, a: Action): seq<int> {
    if a.Deliver? && r.inbox != [] && !r.inbox[0].retry then [r.inbox[0].attempt] else []
  }

  /** The attempts of the triggers that a run delivers, without the retries. */
  function OriginalTriggers(r: Runner, actions: seq<Action>): seq<int>
    decreases |actions|
  {
    if actions == [] then [] else OriginalTrigger(r, actions[0]) + OriginalTriggers(Step(r, actions[0]), actions[1..])
  }

  lemma OriginalIsDelivered(r: Runner, a: Action)
    ensures Step(r, a).originals == r.originals + OriginalTrigger(r, a)
  {
    if a.Deliver? && r.inbox != [] {
      TriggerSpends(Taken(r), r.inbox[0], a.now, a.next, a.beats);
    } else if !a.Deliver? {
      OthersSpend(r, a);
    }
  }

  lemma Associate(a: seq<int>, b: seq<int>, c: seq<int>)
    ensures a + (b + c) == a + b + c
  {
  }

  lemma {:induction false} OriginalsAreDelivered(r: Runner, actions: seq<Action>)
    ensures Run(r, actions).originals == r.originals + OriginalTriggers(r, actions)
    decreases |actions|
  {
    if actions != [] {
      var next := Step(r, actions[0]);
      OriginalIsDelivered(r, actions[0]);
      OriginalsAreDelivered(next, actions[1..]);
      Associate(r.originals, OriginalTrigger(r, actions[0]), OriginalTriggers(next, actions[1..]));
    }
  }

  /**
   From a new runner: at most Max + 1 executions for each original trigger, and one more for every attempt below
   zero that such a trigger claims.
   */
  lemma ExecutionsPerTrigger(actions: seq<Action>)
    ensures var (end, triggers) := (Run(NEW_RUNNER, actions), OriginalTriggers(NEW_RUNNER, actions));
      end.executions + Outstanding(end) <= (MAX_RETRY_ATTEMPTS + 1) * |triggers| + Deficit(triggers)
  {
    RetriesAreBounded(NEW_RUNNER, actions);
    OriginalsAreDelivered(NEW_RUNNER, actions);
    assert [] + OriginalTriggers(NEW_RUNNER, actions) == OriginalTriggers(NEW_RUNNER, actions);
    BudgetBound(OriginalTriggers(NEW_RUNNER, actions));
  }

  // ---- A disabled runner ----

  /** Nothing that this action does can enable the runner. */
  predicate LeavesDisabled(a: Action) {
    !a.Enable? && !(a.Initialize? && a.on)
  }

  lemma FinishIgnored(t: Turn, beats: seq<Beat>, next: Option<int>)
    requires !t.runner.enabled
    ensures ScheduleNextRun(t, beats, next) == t && !Finish(t, beats, next).runner.enabled
  {
  }

  lemma AwaitDisabled(t: Turn, beats: seq<Beat>, e: Effect)
    requires !t.runner.enabled && !e.Enabled? && !(e.Initialized? && e.on)
    ensures !Await(t, beats, e).runner.enabled
  {
  }

  lemma CancelDisabled(t: Turn, beats: seq<Beat>)
    requires !t.runner.enabled
    ensures !CancelRetryLease(t, beats).runner.enabled && !CancelTriggerLease(t, beats).runner.enabled
  {
  }

  lemma DisableDisabled(r: Runner, beats: seq<Beat>)
    requires !r.enabled
    ensures !HandleDisable(r, beats).runner.enabled
  {
    var t := CancelTriggerLease(Start(r), beats);
    CancelDisabled(Start(r), beats);
    CancelDisabled(t, beats);
    AwaitDisabled(CancelRetryLease(t, beats), beats, Disabled);
    AwaitDisabled(Await(CancelRetryLease(t, beats), beats, Disabled), beats, Nothing);
  }

  lemma DisabledStep(r: Runner, a: Action)
    requires !r.enabled && LeavesDisabled(a)
    ensures !Step(r, a).enabled && Step(r, a).executions == r.executions
  {
    match a
    case Deliver(_, _, _) =>
    case Receive(_) =>
    case Tick(beat) => FireKeeps(r, beat);
    case Enable(_, _) => assert false;
    case Activate(_, _, _) =>
    case Disable(beats) =>
      DisableDisabled(r, beats);
      DisableSpends(r, beats);
    case Initialize(content, on, cron, next, beats) =>
      OthersSpend(r, a);
      AwaitDisabled(Start(r), beats, Initialized(on, Trim(cron)));
      FinishIgnored(Await(Start(r), beats, Initialized(on, Trim(cron))), beats, next);
  }

  /** Until it is enabled again nothing runs, whatever fires. */
  lemma {:induction false} NothingRunsWhileDisabled(r: Runner, actions: seq<Action>)
    requires !r.enabled && forall a :: a in actions ==> LeavesDisabled(a)
    ensures !Run(r, actions).enabled && Run(r, actions).executions == r.executions
    decreases |actions|
  {
    if actions != [] {
      assert actions[0] in actions && forall a :: a in actions[1..] ==> a in actions;
      DisabledStep(r, actions[0]);
      NothingRunsWhileDisabled(Step(r, actions[0]), actions[1..]);
    }
  }

  // ---- The schedule stays alive ----

  /** Something is armed or has fired and waits for a turn. */
  predicate Pending(r: Runner) {
    r.triggerSlot.Some? || r.retrySlot.Some? || r.inbox != []
  }

  /** An enabled runner with a schedule will be triggered again. */
  predicate Alive(r: Runner) {
    r.enabled && !IsBlank(r.cron) ==> Pending(r)
  }

  /** The calculator finds a next occurrence whenever it is asked. */
  predicate HasNext(a: Action) {
    match a
    case Receive(_) => true
    case Tick(_) => true
    case Deliver(_, next, _) => next.Some?
    case Initialize(_, _, _, next, _) => next.Some?
    case Disable(_) => true
    case Enable(next, _) => next.Some?
    case Activate(_, next, _) => next.Some?
  }

  predicate KeepsSettings(e: Effect) {
    !e.Initialized? && !e.Disabled? && !e.Enabled?
  }

  lemma AwaitKeepsSettings(t: Turn, beats: seq<Beat>, e: Effect)
    requires KeepsSettings(e)
    ensures var u := Await(t, beats, e); u.runner.enabled == t.runner.enabled && u.runner.cron == t.runner.cron
    ensures Await(t, beats, e).ok ==> t.ok
  {
  }

  lemma AwaitKeepsPending(t: Turn, beats: seq<Beat>, e: Effect)
    requires Pending(t.runner) && !e.CancelTrigger? && !e.CancelRetry?
    ensures Pending(Await(t, beats, e).runner)
  {
  }

  lemma ArmingIsPending(t: Turn, beats: seq<Beat>, e: Effect)
    requires e.ArmTrigger? || e.ArmRetry?
    ensures Await(t, beats, e).ok ==> Pending(Await(t, beats, e).runner)
  {
  }

  lemma ScheduleNextRunArms(t: Turn, beats: seq<Beat>, next: Option<int>)
    requires t.runner.enabled && !IsBlank(t.runner.cron) && next.Some?
    ensures var u := ScheduleNextRun(t, beats, next); u.ok ==> t.ok && Pending(u.runner)
  {
    if t.ok {
      var u := if t.runner.triggerLease.Some? then Await(t, beats, CancelTrigger(t.runner.triggerLease.value)) else t;
      ArmingIsPending(u, beats, ArmTrigger);
      var v := Await(u, beats, ArmTrigger);
      var w := if v.ok && v.runner.triggerSlot.Some?
               then v.(runner := v.runner.(triggerLease := Some(v.runner.triggerSlot.value.generation))) else v;
      if Await(w, beats, NextRun(next.value)).ok {
        AwaitKeepsPending(w, beats, NextRun(next.value));
      }
    }
  }

  lemma FinishArms(t: Turn, beats: seq<Beat>, next: Option<int>)
    requires next.Some?
    ensures var u := Finish(t, beats, next); u.ok ==> Alive(u.runner)
  {
    var u := ScheduleNextRun(t, beats, next);
    ScheduleKeepsSettings(t, beats, next);
    AwaitKeepsSettings(u, beats, Nothing);
    if t.runner.enabled && !IsBlank(t.runner.cron) && Finish(t, beats, next).ok {
      ScheduleNextRunArms(t, beats, next);
      AwaitKeepsPending(u, beats, Nothing);
    }
  }

  lemma ScheduleKeepsSettings(t: Turn, beats: seq<Beat>, next: Option<int>)
    ensures var u := ScheduleNextRun(t, beats, next); u.runner.enabled == t.runner.enabled && u.runner.cron == t.runner.cron
  {
    if !(!t.ok || !t.runner.enabled || IsBlank(t.runner.cron) || next.None?) {
      var u := if t.runner.triggerLease.Some? then Await(t, beats, CancelTrigger(t.runner.triggerLease.value)) else t;
      if t.runner.triggerLease.Some? {
        AwaitKeepsSettings(t, beats, CancelTrigger(t.runner.triggerLease.value));
      }
      AwaitKeepsSettings(u, beats, ArmTrigger);
      var v := Await(u, beats, ArmTrigger);
      var w := if v.ok && v.runner.triggerSlot.Some?
               then v.(runner := v.runner.(triggerLease := Some(v.runner.triggerSlot.value.generation))) else v;
      AwaitKeepsSettings(w, beats, NextRun(next.value));
    }
  }

  lemma RecoverArms(t: Turn, attempt: int, now: int, next: Option<int>, beats: seq<Beat>)
    requires next.Some?
    ensures var u := Recover(t, attempt, now, next, beats); u.ok ==> Alive(u.runner)
  {
    if attempt < MAX_RETRY_ATTEMPTS {
      ArmingIsPending(CancelRetryLease(t, beats), beats, ArmRetry(attempt + 1));
    } else {
      FinishArms(Await(Await(t, beats, Failed(now)), beats, Nothing), beats, next);
    }
  }

  lemma TriggerArms(r: Runner, command: Command, now: int, next: Option<int>, beats: seq<Beat>)
    requires next.Some?
    ensures var u := HandleTrigger(r, command, now, next, beats); u.ok ==> Alive(u.runner)
  {
    if r.enabled {
      var t := TryExecute(r, now, next, beats);
      if t.ok {
        FinishArms(CancelRetryLease(Execute(r, now, beats), beats), beats, next);
      } else {
        RecoverArms(t.(ok := true), command.attempt, now, next, beats);
      }
    }
  }

  lemma DisableDisables(r: Runner, beats: seq<Beat>)
    ensures HandleDisable(r, beats).ok ==> !HandleDisable(r, beats).runner.enabled
  {
  }

  lemma StepStaysAlive(r: Runner, a: Action)
    requires Alive(r) && Succeeds(r, a) && HasNext(a)
    ensures Alive(Step(r, a))
  {
    match a
    case Receive(_) =>
    case Tick(beat) =>
    case Deliver(now, next, beats) =>
      if r.inbox != [] {
        TriggerArms(Taken(r), r.inbox[0], now, next, beats);
      }
    case Initialize(content, on, cron, next, beats) =>
      FinishArms(Await(Start(r), beats, Initialized(on, Trim(cron))), beats, next);
    case Disable(beats) => DisableDisables(r, beats);
    case Enable(next, beats) =>
      FinishArms(if r.enabled then Start(r) else Await(Start(r), beats, Enabled), beats, next);
    case Activate(now, next, beats) =>
      var activated := Start(r.(triggerLease := None, retryLease := None));
      if r.enabled && !IsBlank(r.cron) {
        ScheduleNextRunArms(activated, beats, next);
        ScheduleKeepsSettings(activated, beats, next);
      }
  }

  /** No handler of the run lets an exception out, and the calculator always finds a next occurrence. */
  ghost predicate Smooth(r: Runner, actions: seq<Action>)
    decreases |actions|
  {
    actions == [] || (Succeeds(r, actions[0]) && HasNext(actions[0]) && Smooth(Step(r, actions[0]), actions[1..]))
  }

  /**
   While no handler lets an exception out, an enabled runner with a schedule always has a callback armed or a
   trigger waiting, even when executions fail, calls throw inside a handler, and the actor is activated anew.
   */
  lemma {:induction false} ScheduleStaysAlive(r: Runner, actions: seq<Action>)
    requires Alive(r) && Smooth(r, actions)
    ensures Alive(Run(r, actions))
    decreases |actions|
  {
    if actions != [] {
      StepStaysAlive(r, actions[0]);
      ScheduleStaysAlive(Step(r, actions[0]), actions[1..]);
    }
  }

  // ---- Exactly when it stays alive ----

  /** The runner that a handler starts from. */
  function Begun(r: Runner, a: Action): Runner {
    match a
    case Receive(attempt) => r.(inbox := r.inbox + [Command(attempt, false)])
    case Deliver(_, _, _) => if r.inbox == [] then r else Taken(r)
    case _ => r
  }

  /** The first `n` of the effects, one after another. */
  function Folded(r: Runner, taken: seq<Effect>, n: nat): Runner
    requires n <= |taken|
  {
    if n == 0 then r else Apply(Folded(r, taken, n - 1), taken[n - 1])
  }

  function Slot(r: Runner, retry: bool): Option<Callback> {
    if retry then r.retrySlot else r.triggerSlot
  }

  predicate Arms(e: Effect, retry: bool) {
    if retry then e.ArmRetry? else e.ArmTrigger?
  }

  predicate Cancels(e: Effect, retry: bool, generation: nat) {
    if retry then e == CancelRetry(generation) else e == CancelTrigger(generation)
  }

  /** The callback that is armed after `i` effects is neither replaced nor cancelled by a later one. */
  ghost predicate Survives(r: Runner, taken: seq<Effect>, retry: bool, i: nat)
    requires i <= |taken|
  {
    var slot := Slot(Folded(r, taken, i), retry);
    && slot.Some?
    && forall j :: i <= j < |taken| ==> !Arms(taken[j], retry) && !Cancels(taken[j], retry, slot.value.generation)
  }

  /**
   A callback is left armed: it was from the start or a call armed it, and no later call that took effect cancelled
   its generation.
   */
  ghost predicate LeftArmed(r: Runner, taken: seq<Effect>, retry: bool) {
    exists i :: 0 <= i <= |taken| && (i == 0 || Arms(taken[i - 1], retry)) && Survives(r, taken, retry, i)
  }

  lemma {:induction false} FoldedPrefix(r: Runner, taken: seq<Effect>, e: Effect, n: nat)
    requires n <= |taken|
    ensures Folded(r, taken + [e], n) == Folded(r, taken, n)
  {
    if n > 0 {
      FoldedPrefix(r, taken, e, n - 1);
    }
  }

  lemma FoldedAppend(r: Runner, taken: seq<Effect>, e: Effect)
    ensures Folded(r, taken + [e], |taken| + 1) == Apply(Folded(r, taken, |taken|), e)
  {
    FoldedPrefix(r, taken, e, |taken|);
  }

  lemma {:induction false} SurvivorStays(r: Runner, taken: seq<Effect>, retry: bool, i: nat, n: nat)
    requires i <= n <= |taken| && Survives(r, taken, retry, i)
    ensures Slot(Folded(r, taken, n), retry) == Slot(Folded(r, taken, i), retry)
  {
    if i < n {
      SurvivorStays(r, taken, retry, i, n - 1);
      assert !Arms(taken[n - 1], retry);
    }
  }

  /** Where the callback that is armed after `n` effects was armed. */
  lemma {:induction false} ArmedWhere(r: Runner, taken: seq<Effect>, retry: bool, n: nat) returns (i: nat)
    requires n <= |taken| && Slot(Folded(r, taken, n), retry).Some?
    ensures i <= n && (i == 0 || Arms(taken[i - 1], retry))
    ensures Slot(Folded(r, taken, i), retry) == Slot(Folded(r, taken, n), retry)
    ensures forall j :: i <= j < n ==>
      !Arms(taken[j], retry) && !Cancels(taken[j], retry, Slot(Folded(r, taken, n), retry).value.generation)
  {
    if n == 0 || Arms(taken[n - 1], retry) {
      i := n;
    } else {
      i := ArmedWhere(r, taken, retry, n - 1);
    }
  }

  lemma LeftArmedExactly(r: Runner, taken: seq<Effect>, retry: bool)
    ensures LeftArmed(r, taken, retry) <==> Slot(Folded(r, taken, |taken|), retry).Some?
  {
    if Slot(Folded(r, taken, |taken|), retry).Some? {
      var i := ArmedWhere(r, taken, retry, |taken|);
      assert Survives(r, taken, retry, i);
    }
    if LeftArmed(r, taken, retry) {
      var i :| 0 <= i <= |taken| && (i == 0 || Arms(taken[i - 1], retry)) && Survives(r, taken, retry, i);
      SurvivorStays(r, taken, retry, i, |taken|);
    }
  }

  ghost predicate SameSettings(a: Runner, b: Runner) {
    && a.enabled == b.enabled && a.cron == b.cron && a.nextRunAt == b.nextRunAt
    && a.lastRunAt == b.lastRunAt && a.errorCount == b.errorCount
  }

  ghost predicate SameSlots(a: Runner, b: Runner) {
    a.triggerSlot == b.triggerSlot && a.retrySlot == b.retrySlot
  }

  /** The effects noted in a turn account for its runner's settings, and, when nothing fired, for the armed callbacks. */
  ghost predicate Tracks(t: Turn, r: Runner) {
    var folded := Folded(r, t.taken, |t.taken|);
    && SameSettings(t.runner, folded) && (!t.fired ==> SameSlots(t.runner, folded))
    && (r.inbox != [] || t.fired <==> t.runner.inbox != [])
  }

  lemma ApplySame(a: Runner, b: Runner, e: Effect)
    ensures SameSettings(a, b) ==> SameSettings(Apply(a, e), Apply(b, e))
    ensures SameSlots(a, b) ==> SameSlots(Apply(a, e), Apply(b, e))
    ensures Apply(a, e).inbox == a.inbox
  {
  }

  lemma FireTracks(r: Runner, b: Beat)
    ensures SameSettings(Fire(r, b), r) && (!Fires(r, b) ==> Fire(r, b) == r)
    ensures r.inbox != [] || Fires(r, b) <==> Fire(r, b).inbox != []
  {
  }

  lemma AwaitTracks(t: Turn, r: Runner, beats: seq<Beat>, e: Effect)
    requires Tracks(t, r)
    ensures Tracks(Await(t, beats, e), r)
  {
    var fired := Fire(t.runner, BeatAt(beats, t.at));
    FireTracks(t.runner, BeatAt(beats, t.at));
    var folded := Folded(r, t.taken, |t.taken|);
    ApplySame(fired, folded, e);
    FoldedAppend(r, t.taken, e);
  }

  lemma CancelsTrack(t: Turn, r: Runner, beats: seq<Beat>)
    requires Tracks(t, r)
    ensures Tracks(CancelRetryLease(t, beats), r) && Tracks(CancelTriggerLease(t, beats), r)
  {
    if t.runner.retryLease.Some? {
      AwaitTracks(t, r, beats, CancelRetry(t.runner.retryLease.value));
    }
    if t.runner.triggerLease.Some? {
      AwaitTracks(t, r, beats, CancelTrigger(t.runner.triggerLease.value));
    }
  }

  lemma ScheduleTracks(t: Turn, r: Runner, beats: seq<Beat>, next: Option<int>)
    requires Tracks(t, r)
    ensures Tracks(ScheduleNextRun(t, beats, next), r)
  {
    if !(!t.ok || !t.runner.enabled || IsBlank(t.runner.cron) || next.None?) {
      var u := if t.runner.triggerLease.Some? then Await(t, beats, CancelTrigger(t.runner.triggerLease.value)) else t;
      if t.runner.triggerLease.Some? {
        AwaitTracks(t, r, beats, CancelTrigger(t.runner.triggerLease.value));
      }
      AwaitTracks(u, r, beats, ArmTrigger);
      var v := Await(u, beats, ArmTrigger);
      var w := if v.ok && v.runner.triggerSlot.Some?
               then v.(runner := v.runner.(triggerLease := Some(v.runner.triggerSlot.value.generation))) else v;
      AwaitTracks(w, r, beats, NextRun(next.value));
    }
  }

  lemma FinishTracks(t: Turn, r: Runner, beats: seq<Beat>, next: Option<int>)
    requires Tracks(t, r)
    ensures Tracks(Finish(t, beats, next), r)
  {
    ScheduleTracks(t, r, beats, next);
    AwaitTracks(ScheduleNextRun(t, beats, next), r, beats, Nothing);
  }

  lemma AwaitTwoTracks(t: Turn, r: Runner, beats: seq<Beat>, a: Effect, b: Effect)
    requires Tracks(t, r)
    ensures Tracks(AwaitTwo(t, beats, a, b), r)
  {
    AwaitTracks(t, r, beats, a);
    AwaitTracks(Await(t, beats, a), r, beats, b);
  }

  lemma TryExecuteTracks(r: Runner, now: int, next: Option<int>, beats: seq<Beat>)
    ensures Tracks(TryExecute(r, now, next, beats), r)
  {
    AwaitTwoTracks(Counted(r), r, beats, Nothing, Completed(now));
    var executed := Execute(r, now, beats);
    CancelsTrack(executed, r, beats);
    FinishTracks(CancelRetryLease(executed, beats), r, beats, next);
  }

  lemma ScheduleRetryTracks(t: Turn, r: Runner, beats: seq<Beat>, attempt: int)
    requires Tracks(t, r)
    ensures Tracks(ScheduleRetry(t, beats, attempt), r)
  {
    CancelsTrack(t, r, beats);
    AwaitTracks(CancelRetryLease(t, beats), r, beats, ArmRetry(attempt));
  }

  lemma GivingUpTracks(t: Turn, r: Runner, now: int, next: Option<int>, beats: seq<Beat>)
    requires Tracks(t, r)
    ensures Tracks(Finish(AwaitTwo(t, beats, Failed(now), Nothing), beats, next), r)
  {
    AwaitTwoTracks(t, r, beats, Failed(now), Nothing);
    FinishTracks(AwaitTwo(t, beats, Failed(now), Nothing), r, beats, next);
  }

  lemma RecoverCases(t: Turn, attempt: int, now: int, next: Option<int>, beats: seq<Beat>)
    ensures Recover(t, attempt, now, next, beats)
         == if attempt < MAX_RETRY_ATTEMPTS then ScheduleRetry(t, beats, attempt + 1)
            else Finish(AwaitTwo(t, beats, Failed(now), Nothing), beats, next)
  {
  }

  lemma RecoverTracks(t: Turn, r: Runner, attempt: int, now: int, next: Option<int>, beats: seq<Beat>)
    requires Tracks(t, r)
    ensures Tracks(Recover(t, attempt, now, next, beats), r)
  {
    RecoverCases(t, attempt, now, next, beats);
    if attempt < MAX_RETRY_ATTEMPTS {
      ScheduleRetryTracks(t, r, beats, attempt + 1);
    } else {
      GivingUpTracks(t, r, now, next, beats);
    }
  }

  lemma TriggerTracks(r: Runner, command: Command, now: int, next: Option<int>, beats: seq<Beat>)
    ensures Tracks(HandleTrigger(r, command, now, next, beats), r)
  {
    if r.enabled {
      TryExecuteTracks(r, now, next, beats);
      var t := TryExecute(r, now, next, beats);
      if !t.ok {
        RecoverTracks(t.(ok := true), r, command.attempt, now, next, beats);
      }
    }
  }

  lemma DisableTracks(r: Runner, beats: seq<Beat>)
    ensures Tracks(HandleDisable(r, beats), r)
  {
    CancelsTrack(Start(r), r, beats);
    var t := CancelTriggerLease(Start(r), beats);
    CancelsTrack(t, r, beats);
    AwaitTwoTracks(CancelRetryLease(t, beats), r, beats, Disabled, Nothing);
  }

  lemma HandleTracks(r: Runner, a: Action)
    ensures Tracks(Handle(r, a), Begun(r, a))
  {
    match a
    case Receive(_) =>
    case Tick(_) =>
    case Deliver(now, next, beats) =>
      if r.inbox != [] {
        TriggerTracks(Taken(r), r.inbox[0], now, next, beats);
      }
    case Initialize(content, on, cron, next, beats) =>
      AwaitTracks(Start(r), r, beats, Initialized(on, Trim(cron)));
      FinishTracks(Await(Start(r), beats, Initialized(on, Trim(cron))), r, beats, next);
    case Disable(beats) => DisableTracks(r, beats);
    case Enable(next, beats) =>
      AwaitTracks(Start(r), r, beats, Enabled);
      FinishTracks(if r.enabled then Start(r) else Await(Start(r), beats, Enabled), r, beats, next);
    case Activate(now, next, beats) =>
      ScheduleTracks(Start(r.(triggerLease := None, retryLease := None)), r, beats, next);
  }

  predicate Scheduled(r: Runner) {
    r.enabled && !IsBlank(r.cron)
  }

  /**
   What leaves a schedule dead: by the effects that took place the runner is enabled and has a schedule, but nothing
   waits, nothing fired, and no callback was left armed.
   */
  ghost predicate Kills(r: Runner, a: Action) {
    var taken, start := Handle(r, a).taken, Begun(r, a);
    && Scheduled(Folded(start, taken, |taken|))
    && start.inbox == [] && !Handle(r, a).fired
    && !LeftArmed(start, taken, false) && !LeftArmed(start, taken, true)
  }

  lemma StepAliveExactly(r: Runner, a: Action)
    ensures Alive(Step(r, a)) <==> !Kills(r, a)
  {
    HandleTracks(r, a);
    LeftArmedExactly(Begun(r, a), Handle(r, a).taken, false);
    LeftArmedExactly(Begun(r, a), Handle(r, a).taken, true);
  }

  ghost predicate AliveThroughout(r: Runner, actions: seq<Action>)
    decreases |actions|
  {
    Alive(r) && (actions == [] || AliveThroughout(Step(r, actions[0]), actions[1..]))
  }

  ghost predicate NothingKills(r: Runner, actions: seq<Action>)
    decreases |actions|
  {
    actions == [] || (!Kills(r, actions[0]) && NothingKills(Step(r, actions[0]), actions[1..]))
  }

  /** Over any run, whatever throws, fires or is activated anew. */
  lemma {:induction false} AliveThroughoutExactly(r: Runner, actions: seq<Action>)
    ensures AliveThroughout(r, actions) <==> Alive(r) && NothingKills(r, actions)
    decreases |actions|
  {
    if actions != [] {
      StepAliveExactly(r, actions[0]);
      AliveThroughoutExactly(Step(r, actions[0]), actions[1..]);
    }
  }

  // ---- What the fields record ----

  /** The calls of a run that took effect, in order. */
  function Log(r: Runner, actions: seq<Action>): seq<Effect>
    decreases |actions|
  {
    if actions == [] then [] else Handle(r, actions[0]).taken + Log(Step(r, actions[0]), actions[1..])
  }

  /** Failures since the last execution that completed. */
  function ErrorsIn(log: seq<Effect>): nat {
    if log == [] then 0
    else
      match log[|log| - 1]
      case Completed(_) => 0
      case Failed(_) => ErrorsIn(log[..|log| - 1]) + 1
      case _ => ErrorsIn(log[..|log| - 1])
  }

  /** When an execution completed or failed for good, last. */
  function LastRunIn(log: seq<Effect>): Option<int> {
    if log == [] then None
    else
      match log[|log| - 1]
      case Completed(at) => Some(at)
      case Failed(at) => Some(at)
      case _ => LastRunIn(log[..|log| - 1])
  }

  /** The next run that was stored last, unless the runner was disabled since. */
  function NextRunIn(log: seq<Effect>): Option<int> {
    if log == [] then None
    else
      match log[|log| - 1]
      case NextRun(at) => Some(at)
      case Disabled => None
      case _ => NextRunIn(log[..|log| - 1])
  }

  function EnabledIn(log: seq<Effect>): bool {
    if log == [] then false
    else
      match log[|log| - 1]
      case Initialized(on, _) => on
      case Disabled => false
      case Enabled => true
      case _ => EnabledIn(log[..|log| - 1])
  }

  function CronIn(log: seq<Effect>): string {
    if log == [] then ""
    else
      match log[|log| - 1]
      case Initialized(_, cron) => cron
      case _ => CronIn(log[..|log| - 1])
  }

  /** Each field is what the log says about it. */
  ghost predicate Records(r: Runner, log: seq<Effect>) {
    && r.enabled == EnabledIn(log) && r.cron == CronIn(log) && r.nextRunAt == NextRunIn(log)
    && r.lastRunAt == LastRunIn(log) && r.errorCount == ErrorsIn(log)
  }

  lemma RecordsOneMore(r: Runner, log: seq<Effect>, e: Effect)
    requires Records(r, log)
    ensures Records(Apply(r, e), log + [e])
  {
    assert (log + [e])[..|log|] == log;
  }

  lemma {:induction false} FoldedRecords(r: Runner, log: seq<Effect>, taken: seq<Effect>, n: nat)
    requires n <= |taken| && Records(r, log)
    ensures Records(Folded(r, taken, n), log + taken[..n])
  {
    if n == 0 {
      assert log + taken[..0] == log;
    } else {
      FoldedRecords(r, log, taken, n - 1);
      RecordsOneMore(Folded(r, taken, n - 1), log + taken[..n - 1], taken[n - 1]);
      assert log + taken[..n - 1] + [taken[n - 1]] == log + taken[..n];
    }
  }

  lemma StepRecords(r: Runner, a: Action, log: seq<Effect>)
    requires Records(r, log)
    ensures Records(Step(r, a), log + Handle(r, a).taken)
  {
    HandleTracks(r, a);
    var taken := Handle(r, a).taken;
    assert Records(Begun(r, a), log);
    FoldedRecords(Begun(r, a), log, taken, |taken|);
    assert taken[..|taken|] == taken;
  }

  lemma {:induction false} RunRecords(r: Runner, actions: seq<Action>, log: seq<Effect>)
    requires Records(r, log)
    ensures Records(Run(r, actions), log + Log(r, actions))
    decreases |actions|
  {
    if actions == [] {
      assert log + [] == log;
    } else {
      StepRecords(r, actions[0], log);
      LogOfMore(r, actions, log);
      RunRecords(Step(r, actions[0]), actions[1..], log + Handle(r, actions[0]).taken);
    }
  }

  lemma LogOfMore(r: Runner, actions: seq<Action>, log: seq<Effect>)
    requires actions != []
    ensures log + Log(r, actions) == log + Handle(r, actions[0]).taken + Log(Step(r, actions[0]), actions[1..])
  {
  }

  /**
   In every reachable state: the error count is the number of failures since an execution last completed, and the
   other fields are what the calls that took effect stored last.
   */
  lemma FieldsRecordTheLog(actions: seq<Action>)
    ensures Records(Run(NEW_RUNNER, actions), Log(NEW_RUNNER, actions))
  {
    RunRecords(NEW_RUNNER, actions, []);
    assert [] + Log(NEW_RUNNER, actions) == Log(NEW_RUNNER, actions);
  }

  // ---- Which calls a turn awaits ----

  /** What comes of awaiting planned calls in order, up to the first that throws. */
  datatype Trace = Trace(taken: seq<Effect>, at: nat, ok: bool)

  function Carried(plan: seq<Effect>, beats: seq<Beat>, at: nat): Trace
    decreases |plan|
  {
    if plan == [] then Trace([], at, true)
    else
      var outcome := BeatAt(beats, at).outcome;
      var here := if outcome.ThrowsBefore? then [] else [plan[0]];
      if !outcome.Returns? then Trace(here, at + 1, false)
      else
        var rest := Carried(plan[1..], beats, at + 1);
        Trace(here + rest.taken, rest.at, rest.ok)
  }

  /** From `t` to `u` the turn awaits these calls in order, and no others. */
  ghost predicate Follows(t: Turn, u: Turn, beats: seq<Beat>, plan: seq<Effect>) {
    if !t.ok then Trace(u.taken, u.at, u.ok) == Trace(t.taken, t.at, false)
    else
      var c := Carried(plan, beats, t.at);
      u.taken == t.taken + c.taken && u.at == c.at && u.ok == c.ok
  }

  lemma FollowsNothing(t: Turn, u: Turn, beats: seq<Beat>)
    requires u.taken == t.taken && u.at == t.at && u.ok == t.ok
    ensures Follows(t, u, beats, [])
  {
    assert t.taken + [] == t.taken;
  }

  lemma FollowsOne(t: Turn, beats: seq<Beat>, e: Effect)
    ensures Follows(t, Await(t, beats, e), beats, [e])
  {
    assert [e][1..] == [] && [e] + [] == [e] && t.taken + [] == t.taken;
  }

  lemma {:induction false} CarriedConcat(p: seq<Effect>, q: seq<Effect>, beats: seq<Beat>, at: nat)
    ensures var c := Carried(p, beats, at);
      Carried(p + q, beats, at)
      == if !c.ok then c
         else
           var d := Carried(q, beats, c.at);
           Trace(c.taken + d.taken, d.at, d.ok)
    decreases |p|
  {
    if p == [] {
      assert p + q == q && [] + Carried(q, beats, at).taken == Carried(q, beats, at).taken;
    } else {
      assert (p + q)[1..] == p[1..] + q;
      CarriedConcat(p[1..], q, beats, at + 1);
      var (here, c) := ([p[0]], Carried(p[1..], beats, at + 1));
      var d := Carried(q, beats, c.at);
      assert here + (c.taken + d.taken) == here + c.taken + d.taken;
    }
  }

  lemma FollowsThen(t: Turn, u: Turn, v: Turn, beats: seq<Beat>, p: seq<Effect>, q: seq<Effect>)
    requires Follows(t, u, beats, p) && Follows(u, v, beats, q)
    ensures Follows(t, v, beats, p + q)
  {
    if t.ok {
      CarriedConcat(p, q, beats, t.at);
      var (c, d) := (Carried(p, beats, t.at), Carried(q, beats, u.at));
      assert t.taken + c.taken + d.taken == t.taken + (c.taken + d.taken);
    }
  }

  function CancelRetryPlan(lease: Option<nat>): seq<Effect> {
    if lease.Some? then [CancelRetry(lease.value)] else []
  }

  function CancelTriggerPlan(lease: Option<nat>): seq<Effect> {
    if lease.Some? then [CancelTrigger(lease.value)] else []
  }

  /** Scheduling the next run, when the runner is on, has a schedule, and the schedule has a next occurrence. */
  function SchedulePlan(on: bool, cron: string, lease: Option<nat>, next: Option<int>): seq<Effect> {
    if !on || IsBlank(cron) || next.None? then []
    else CancelTriggerPlan(lease) + [ArmTrigger, NextRun(next.value)]
  }

  lemma FollowsTwo(t: Turn, beats: seq<Beat>, a: Effect, b: Effect)
    ensures Follows(t, AwaitTwo(t, beats, a, b), beats, [a, b])
  {
    var u := Await(t, beats, a);
    FollowsOne(t, beats, a);
    FollowsOne(u, beats, b);
    FollowsThen(t, u, Await(u, beats, b), beats, [a], [b]);
    assert [a] + [b] == [a, b];
  }

  lemma CancelRetryFollows(t: Turn, beats: seq<Beat>)
    ensures Follows(t, CancelRetryLease(t, beats), beats, CancelRetryPlan(t.runner.retryLease))
    ensures var u := CancelRetryLease(t, beats).runner; u.triggerLease == t.runner.triggerLease
  {
    if t.runner.retryLease.Some? {
      FollowsOne(t, beats, CancelRetry(t.runner.retryLease.value));
    } else {
      FollowsNothing(t, t, beats);
    }
  }

  lemma CancelTriggerFollows(t: Turn, beats: seq<Beat>)
    ensures Follows(t, CancelTriggerLease(t, beats), beats, CancelTriggerPlan(t.runner.triggerLease))
    ensures var u := CancelTriggerLease(t, beats).runner; u.retryLease == t.runner.retryLease
  {
    if t.runner.triggerLease.Some? {
      FollowsOne(t, beats, CancelTrigger(t.runner.triggerLease.value));
    } else {
      FollowsNothing(t, t, beats);
    }
  }

  lemma ArmingFollows(u: Turn, beats: seq<Beat>, next: int)
    ensures var v := Await(u, beats, ArmTrigger);
      var w := if v.ok && v.runner.triggerSlot.Some?
               then v.(runner := v.runner.(triggerLease := Some(v.runner.triggerSlot.value.generation))) else v;
      Follows(u, Await(w, beats, NextRun(next)), beats, [ArmTrigger, NextRun(next)])
  {
    var v := Await(u, beats, ArmTrigger);
    var w := if v.ok && v.runner.triggerSlot.Some?
             then v.(runner := v.runner.(triggerLease := Some(v.runner.triggerSlot.value.generation))) else v;
    FollowsOne(u, beats, ArmTrigger);
    FollowsOne(w, beats, NextRun(next));
    FollowsThen(u, v, Await(w, beats, NextRun(next)), beats, [ArmTrigger], [NextRun(next)]);
    assert [ArmTrigger] + [NextRun(next)] == [ArmTrigger, NextRun(next)];
  }

  lemma ScheduleFollows(t: Turn, beats: seq<Beat>, next: Option<int>)
    ensures Follows(t, ScheduleNextRun(t, beats, next), beats,
                    SchedulePlan(t.runner.enabled, t.runner.cron, t.runner.triggerLease, next))
  {
    var lease := t.runner.triggerLease;
    if !t.ok || !t.runner.enabled || IsBlank(t.runner.cron) || next.None? {
      FollowsNothing(t, t, beats);
    } else {
      var u := if lease.Some? then Await(t, beats, CancelTrigger(lease.value)) else t;
      if lease.Some? {
        FollowsOne(t, beats, CancelTrigger(lease.value));
      } else {
        FollowsNothing(t, t, beats);
      }
      ArmingFollows(u, beats, next.value);
      FollowsThen(t, u, ScheduleNextRun(t, beats, next), beats, CancelTriggerPlan(lease), [ArmTrigger, NextRun(next.value)]);
    }
  }

  lemma FinishFollows(t: Turn, beats: seq<Beat>, next: Option<int>)
    ensures Follows(t, Finish(t, beats, next), beats,
                    SchedulePlan(t.runner.enabled, t.runner.cron, t.runner.triggerLease, next) + [Nothing])
  {
    var u := ScheduleNextRun(t, beats, next);
    ScheduleFollows(t, beats, next);
    FollowsOne(u, beats, Nothing);
    FollowsThen(t, u, Await(u, beats, Nothing), beats,
                SchedulePlan(t.runner.enabled, t.runner.cron, t.runner.triggerLease, next), [Nothing]);
  }

  /** The calls of an execution that goes well: run, completed, the old retry cancelled, the next run scheduled, reported. */
  function TryPlan(r: Runner, now: int, next: Option<int>): seq<Effect> {
    [Nothing, Completed(now)] + CancelRetryPlan(r.retryLease)
    + (SchedulePlan(r.enabled, r.cron, r.triggerLease, next) + [Nothing])
  }

  /** The calls after a failure: a retry while there are any left, else the failure is stored and the next run scheduled. */
  function RecoverPlan(r: Runner, attempt: int, now: int, next: Option<int>): seq<Effect> {
    if attempt < MAX_RETRY_ATTEMPTS then CancelRetryPlan(r.retryLease) + [ArmRetry(attempt + 1)]
    else [Failed(now), Nothing] + (SchedulePlan(r.enabled, r.cron, r.triggerLease, next) + [Nothing])
  }

  lemma AwaitKeepsRest(t: Turn, beats: seq<Beat>, e: Effect)
    requires KeepsSettings(e)
    ensures var u := Await(t, beats, e).runner;
      u.enabled == t.runner.enabled && u.cron == t.runner.cron && u.triggerLease == t.runner.triggerLease
      && u.retryLease == t.runner.retryLease
  {
  }

  lemma TryFollows(r: Runner, now: int, next: Option<int>, beats: seq<Beat>)
    ensures Follows(Start(r), TryExecute(r, now, next, beats), beats, TryPlan(r, now, next))
  {
    var (start, executed) := (Counted(r), Execute(r, now, beats));
    FollowsTwo(start, beats, Nothing, Completed(now));
    AwaitKeepsRest(start, beats, Nothing);
    AwaitKeepsRest(Await(start, beats, Nothing), beats, Completed(now));
    var cancelled := CancelRetryLease(executed, beats);
    CancelRetryFollows(executed, beats);
    CancelKeepsSettings(executed, beats);
    FollowsThen(start, executed, cancelled, beats, [Nothing, Completed(now)], CancelRetryPlan(r.retryLease));
    FinishFollows(cancelled, beats, next);
    FollowsThen(start, cancelled, Finish(cancelled, beats, next), beats,
                [Nothing, Completed(now)] + CancelRetryPlan(r.retryLease),
                SchedulePlan(r.enabled, r.cron, r.triggerLease, next) + [Nothing]);
  }

  lemma CancelKeepsSettings(t: Turn, beats: seq<Beat>)
    ensures var u := CancelRetryLease(t, beats).runner; u.enabled == t.runner.enabled && u.cron == t.runner.cron
  {
    if t.runner.retryLease.Some? {
      AwaitKeepsRest(t, beats, CancelRetry(t.runner.retryLease.value));
    }
  }

  lemma RecoverFollows(t: Turn, attempt: int, now: int, next: Option<int>, beats: seq<Beat>)
    ensures Follows(t, Recover(t, attempt, now, next, beats), beats, RecoverPlan(t.runner, attempt, now, next))
  {
    if attempt < MAX_RETRY_ATTEMPTS {
      var cancelled := CancelRetryLease(t, beats);
      CancelRetryFollows(t, beats);
      FollowsOne(cancelled, beats, ArmRetry(attempt + 1));
      FollowsThen(t, cancelled, Await(cancelled, beats, ArmRetry(attempt + 1)), beats,
                  CancelRetryPlan(t.runner.retryLease), [ArmRetry(attempt + 1)]);
    } else {
      var failed := AwaitTwo(t, beats, Failed(now), Nothing);
      FollowsTwo(t, beats, Failed(now), Nothing);
      AwaitKeepsRest(t, beats, Failed(now));
      AwaitKeepsRest(Await(t, beats, Failed(now)), beats, Nothing);
      FinishFollows(failed, beats, next);
      FollowsThen(t, failed, Finish(failed, beats, next), beats, [Failed(now), Nothing],
                  SchedulePlan(t.runner.enabled, t.runner.cron, t.runner.triggerLease, next) + [Nothing]);
    }
  }

  /**
   Which calls a trigger awaits, whatever they do: none when the runner is disabled, else those of the try in order,
   and from the first that throws those of the recovery.
   */
  lemma TriggerFollowsPlan(r: Runner, command: Command, now: int, next: Option<int>, beats: seq<Beat>)
    ensures var u := HandleTrigger(r, command, now, next, beats);
      if !r.enabled then u == Start(r)
      else
        var t := TryExecute(r, now, next, beats);
        && Follows(Start(r), t, beats, TryPlan(r, now, next))
        && (t.ok ==> u == t)
        && (!t.ok ==> Follows(t.(ok := true), u, beats, RecoverPlan(t.runner, command.attempt, now, next)))
  {
    if r.enabled {
      TryFollows(r, now, next, beats);
      var t := TryExecute(r, now, next, beats);
      RecoverFollows(t.(ok := true), command.attempt, now, next, beats);
    }
  }

  function InitializePlan(r: Runner, on: bool, cron: string, next: Option<int>): seq<Effect> {
    [Initialized(on, Trim(cron))] + (SchedulePlan(on, Trim(cron), r.triggerLease, next) + [Nothing])
  }

  lemma InitializeFollows(r: Runner, content: string, on: bool, cron: string, next: Option<int>, beats: seq<Beat>)
    requires !IsBlank(content)
    ensures Follows(Start(r), HandleInitialize(r, content, on, cron, next, beats), beats, InitializePlan(r, on, cron, next))
  {
    var e := Initialized(on, Trim(cron));
    var t := Await(Start(r), beats, e);
    FollowsOne(Start(r), beats, e);
    FinishFollows(t, beats, next);
    var u := Finish(t, beats, next);
    if t.ok {
      FollowsThen(Start(r), t, u, beats, [e], SchedulePlan(on, Trim(cron), r.triggerLease, next) + [Nothing]);
    } else {
      CarriedConcat([e], SchedulePlan(on, Trim(cron), r.triggerLease, next) + [Nothing], beats, 0);
    }
  }

  function EnablePlan(r: Runner, next: Option<int>): seq<Effect> {
    (if r.enabled then [] else [Enabled]) + (SchedulePlan(true, r.cron, r.triggerLease, next) + [Nothing])
  }

  lemma EnableFollows(r: Runner, next: Option<int>, beats: seq<Beat>)
    ensures Follows(Start(r), HandleEnable(r, next, beats), beats, EnablePlan(r, next))
  {
    var first := if r.enabled then [] else [Enabled];
    var t := if r.enabled then Start(r) else Await(Start(r), beats, Enabled);
    var last := SchedulePlan(true, r.cron, r.triggerLease, next) + [Nothing];
    if r.enabled {
      FollowsNothing(Start(r), t, beats);
    } else {
      FollowsOne(Start(r), beats, Enabled);
    }
    FinishFollows(t, beats, next);
    if t.ok {
      FollowsThen(Start(r), t, Finish(t, beats, next), beats, first, last);
    } else {
      CarriedConcat(first, last, beats, 0);
    }
  }

  function DisablePlan(r: Runner): seq<Effect> {
    CancelTriggerPlan(r.triggerLease) + CancelRetryPlan(r.retryLease) + [Disabled, Nothing]
  }

  lemma DisableFollows(r: Runner, beats: seq<Beat>)
    ensures Follows(Start(r), HandleDisable(r, beats), beats, DisablePlan(r))
  {
    var t := CancelTriggerLease(Start(r), beats);
    var u := CancelRetryLease(t, beats);
    CancelTriggerFollows(Start(r), beats);
    CancelRetryFollows(t, beats);
    FollowsThen(Start(r), t, u, beats, CancelTriggerPlan(r.triggerLease), CancelRetryPlan(r.retryLease));
    FollowsTwo(u, beats, Disabled, Nothing);
    FollowsThen(Start(r), u, AwaitTwo(u, beats, Disabled, Nothing), beats,
                CancelTriggerPlan(r.triggerLease) + CancelRetryPlan(r.retryLease), [Disabled, Nothing]);
  }

  function ActivatePlan(r: Runner, now: int, next: Option<int>): seq<Effect> {
    if r.nextRunAt.Some? && r.nextRunAt.value > now then [] else SchedulePlan(r.enabled, r.cron, None, next)
  }

  lemma ActivateFollows(r: Runner, now: int, next: Option<int>, beats: seq<Beat>)
    ensures Follows(Start(r), HandleActivate(r, now, next, beats), beats, ActivatePlan(r, now, next))
  {
    var t := Start(r.(triggerLease := None, retryLease := None));
    FollowsNothing(Start(r), t, beats);
    ScheduleFollows(t, beats, next);
  }

  /** Which calls the other handlers await, whatever they do. */
  lemma HandlersFollowPlans(r: Runner, a: Action)
    ensures a.Initialize? ==> Follows(Start(r), Handle(r, a), a.beats,
                                      if IsBlank(a.content) then [] else InitializePlan(r, a.on, a.newCron, a.next))
    ensures a.Enable? ==> Follows(Start(r), Handle(r, a), a.beats, EnablePlan(r, a.next))
    ensures a.Disable? ==> Follows(Start(r), Handle(r, a), a.beats, DisablePlan(r))
    ensures a.Activate? ==> Follows(Start(r), Handle(r, a), a.beats, ActivatePlan(r, a.now, a.next))
  {
    match a
    case Initialize(content, on, cron, next, beats) =>
      if IsBlank(content) {
        FollowsNothing(Start(r), Start(r), beats);
      } else {
        InitializeFollows(r, content, on, cron, next, beats);
      }
    case Enable(next, beats) => EnableFollows(r, next, beats);
    case Disable(beats) => DisableFollows(r, beats);
    case Activate(now, next, beats) => ActivateFollows(r, now, next, beats);
    case _ =>
  }

  // ---- One arming call that takes effect is enough ----

  ghost predicate ArmedIn(t: Turn, retry: bool) {
    exists i :: 0 <= i < |t.taken| && Arms(t.taken[i], retry)
  }

  /** In a turn that began with nothing armed: something may still come exactly if a call armed it. */
  ghost predicate Sparse(t: Turn) {
    && (t.runner.triggerSlot.Some? ==> ArmedIn(t, false)) && (t.runner.retrySlot.Some? ==> ArmedIn(t, true))
    && (Pending(t.runner) <==> ArmedIn(t, false) || ArmedIn(t, true))
  }

  lemma AwaitArms(t: Turn, beats: seq<Beat>, e: Effect, retry: bool)
    ensures ArmedIn(t, retry) ==> ArmedIn(Await(t, beats, e), retry)
    ensures ArmedIn(Await(t, beats, e), retry) ==> ArmedIn(t, retry) || Arms(e, retry)
    ensures t.ok && !BeatAt(beats, t.at).outcome.ThrowsBefore? && Arms(e, retry) ==> ArmedIn(Await(t, beats, e), retry)
  {
    var u := Await(t, beats, e);
    if ArmedIn(t, retry) {
      var i :| 0 <= i < |t.taken| && Arms(t.taken[i], retry);
      assert Arms(u.taken[i], retry);
    }
    if u.taken == t.taken + [e] {
      assert u.taken[|t.taken|] == e;
    }
  }

  /** A call keeps this unless it can cancel what the turn has armed. */
  lemma AwaitSparse(t: Turn, beats: seq<Beat>, e: Effect)
    requires Sparse(t) && (e.CancelTrigger? ==> !ArmedIn(t, false)) && (e.CancelRetry? ==> !ArmedIn(t, true))
    ensures Sparse(Await(t, beats, e))
    ensures !e.ArmTrigger? && !ArmedIn(t, false) ==> !ArmedIn(Await(t, beats, e), false)
    ensures !e.ArmRetry? && !ArmedIn(t, true) ==> !ArmedIn(Await(t, beats, e), true)
  {
    AwaitArms(t, beats, e, false);
    AwaitArms(t, beats, e, true);
  }

  lemma CancelRetrySparse(t: Turn, beats: seq<Beat>)
    requires Sparse(t) && !ArmedIn(t, true)
    ensures var u := CancelRetryLease(t, beats);
      Sparse(u) && !ArmedIn(u, true) && (ArmedIn(u, false) ==> ArmedIn(t, false))
  {
    if t.runner.retryLease.Some? {
      AwaitSparse(t, beats, CancelRetry(t.runner.retryLease.value));
    }
  }

  lemma FinishSparse(t: Turn, beats: seq<Beat>, next: Option<int>)
    requires Sparse(t) && !ArmedIn(t, false)
    ensures Sparse(ScheduleNextRun(t, beats, next)) && Sparse(Finish(t, beats, next))
    ensures !ArmedIn(t, true) ==> !ArmedIn(Finish(t, beats, next), true)
  {
    if !(!t.ok || !t.runner.enabled || IsBlank(t.runner.cron) || next.None?) {
      var u := if t.runner.triggerLease.Some? then Await(t, beats, CancelTrigger(t.runner.triggerLease.value)) else t;
      if t.runner.triggerLease.Some? {
        AwaitSparse(t, beats, CancelTrigger(t.runner.triggerLease.value));
      }
      AwaitSparse(u, beats, ArmTrigger);
      var v := Await(u, beats, ArmTrigger);
      var w := if v.ok && v.runner.triggerSlot.Some?
               then v.(runner := v.runner.(triggerLease := Some(v.runner.triggerSlot.value.generation))) else v;
      AwaitSparse(w, beats, NextRun(next.value));
    }
    AwaitSparse(ScheduleNextRun(t, beats, next), beats, Nothing);
  }

  lemma TryExecuteSparse(r: Runner, now: int, next: Option<int>, beats: seq<Beat>)
    requires !Pending(r)
    ensures var t := TryExecute(r, now, next, beats); Sparse(t) && !ArmedIn(t, true)
  {
    var t := Counted(r);
    AwaitSparse(t, beats, Nothing);
    AwaitSparse(Await(t, beats, Nothing), beats, Completed(now));
    var executed := Execute(r, now, beats);
    CancelRetrySparse(executed, beats);
    FinishSparse(CancelRetryLease(executed, beats), beats, next);
  }

  lemma ScheduleRetrySparse(t: Turn, beats: seq<Beat>, attempt: int)
    requires Sparse(t) && !ArmedIn(t, true)
    ensures Sparse(ScheduleRetry(t, beats, attempt))
  {
    CancelRetrySparse(t, beats);
    AwaitSparse(CancelRetryLease(t, beats), beats, ArmRetry(attempt));
  }

  lemma CaughtSparse(t: Turn)
    ensures ArmedIn(t.(ok := true), true) == ArmedIn(t, true) && ArmedIn(t.(ok := true), false) == ArmedIn(t, false)
    ensures Sparse(t.(ok := true)) == Sparse(t)
  {
  }

  lemma CaughtRetrySparse(t: Turn, beats: seq<Beat>, attempt: int)
    requires Sparse(t) && !ArmedIn(t, true)
    ensures Sparse(ScheduleRetry(t.(ok := true), beats, attempt))
  {
    CaughtSparse(t);
    ScheduleRetrySparse(t.(ok := true), beats, attempt);
  }

  lemma TryOrRetry(r: Runner, command: Command, now: int, next: Option<int>, beats: seq<Beat>)
    requires r.enabled && command.attempt < MAX_RETRY_ATTEMPTS
    ensures var t := TryExecute(r, now, next, beats);
      HandleTrigger(r, command, now, next, beats)
      == if t.ok then t else ScheduleRetry(t.(ok := true), beats, command.attempt + 1)
  {
  }

  lemma StartSparse(r: Runner)
    requires !Pending(r)
    ensures Sparse(Start(r))
  {
  }

  lemma TriggerSparse(r: Runner, command: Command, now: int, next: Option<int>, beats: seq<Beat>)
    requires !Pending(r) && command.attempt < MAX_RETRY_ATTEMPTS
    ensures Sparse(HandleTrigger(r, command, now, next, beats))
  {
    if r.enabled {
      TryOrRetry(r, command, now, next, beats);
      TryExecuteSparse(r, now, next, beats);
      var t := TryExecute(r, now, next, beats);
      if !t.ok {
        CaughtRetrySparse(t, beats, command.attempt + 1);
      }
    } else {
      StartSparse(r);
    }
  }

  lemma DisableSparse(r: Runner, beats: seq<Beat>)
    requires !Pending(r)
    ensures Sparse(HandleDisable(r, beats))
  {
    StartSparse(r);
    if r.triggerLease.Some? {
      AwaitSparse(Start(r), beats, CancelTrigger(r.triggerLease.value));
    }
    var t := CancelTriggerLease(Start(r), beats);
    CancelRetrySparse(t, beats);
    var u := CancelRetryLease(t, beats);
    AwaitSparse(u, beats, Disabled);
    AwaitSparse(Await(u, beats, Disabled), beats, Nothing);
  }

  /**
   When nothing else waits or is armed, and unless the trigger is out of retries: something will still come exactly
   if a call that arms a callback took effect, even if the same call or a later one then throws.
   */
  lemma OneArmingIsEnough(r: Runner, a: Action)
    requires !Pending(Begun(r, a))
    requires a.Deliver? && r.inbox != [] ==> r.inbox[0].attempt < MAX_RETRY_ATTEMPTS
    ensures Pending(Step(r, a)) <==> ArmedIn(Handle(r, a), false) || ArmedIn(Handle(r, a), true)
  {
    match a
    case Tick(_) =>
    case Deliver(now, next, beats) =>
      if r.inbox != [] {
        TriggerSparse(Taken(r), r.inbox[0], now, next, beats);
      }
    case Initialize(content, on, cron, next, beats) =>
      AwaitSparse(Start(r), beats, Initialized(on, Trim(cron)));
      FinishSparse(Await(Start(r), beats, Initialized(on, Trim(cron))), beats, next);
    case Disable(beats) => DisableSparse(r, beats);
    case Enable(next, beats) =>
      AwaitSparse(Start(r), beats, Enabled);
      FinishSparse(if r.enabled then Start(r) else Await(Start(r), beats, Enabled), beats, next);
    case Activate(now, next, beats) =>
      FinishSparse(Start(r.(triggerLease := None, retryLease := None)), beats, next);
  }

  // ---- Two runs that kill the schedule ----

  lemma RunTwo(r: Runner, a: Action, b: Action)
    ensures Run(r, [a, b]) == Step(Step(r, a), b)
  {
    assert [a, b][1..] == [b] && [b][1..] == [];
    assert Run(Step(r, a), [b]) == Run(Step(Step(r, a), b), []);
  }

  /** An initialized runner whose first trigger has fired. */
  function Fired(cron: string, next: int): Runner {
    NEW_RUNNER.(enabled := true, cron := cron, nextRunAt := Some(next), triggerLease := Some(1),
                inbox := [Command(0, false)])
  }

  lemma RunCons(r: Runner, a: Action, actions: seq<Action>)
    ensures Run(r, [a] + actions) == Run(Step(r, a), actions)
  {
    assert ([a] + actions)[1..] == actions;
  }

  lemma InitializedRunner(content: string, cron: string, next: int)
    requires !IsBlank(content) && !IsBlank(Trim(cron))
    ensures Step(NEW_RUNNER, Initialize(content, true, cron, Some(next), []))
            == NEW_RUNNER.(enabled := true, cron := Trim(cron), nextRunAt := Some(next), triggerLease := Some(1),
                           triggerSlot := Some(Callback(1, Command(0, false))))
  {
    var t := Await(Start(NEW_RUNNER), [], Initialized(true, Trim(cron)));
    assert t.runner == NEW_RUNNER.(enabled := true, cron := Trim(cron)) && t.ok;
    var u := ScheduleNextRun(t, [], Some(next));
    assert u.runner == t.runner.(triggerSlot := Some(Callback(1, Command(0, false))), triggerLease := Some(1),
                                 nextRunAt := Some(next));
  }

  lemma InitializeThenTick(content: string, cron: string, next: int)
    requires !IsBlank(content) && !IsBlank(Trim(cron))
    ensures Run(NEW_RUNNER, [Initialize(content, true, cron, Some(next), []), Tick(Beat(true, false, Returns))])
            == Fired(Trim(cron), next)
  {
    InitializedRunner(content, cron, next);
    RunTwo(NEW_RUNNER, Initialize(content, true, cron, Some(next), []), Tick(Beat(true, false, Returns)));
  }

  /** A retry that cannot be armed is an exception that escapes: the schedule is then dead. */
  lemma EscapedExceptionKillsSchedule(content: string, cron: string, now: int, next: int, later: int)
    requires !IsBlank(content) && !IsBlank(Trim(cron))
    ensures var throws := Beat(false, false, ThrowsBefore);
      var r := Run(NEW_RUNNER, [Initialize(content, true, cron, Some(next), []), Tick(Beat(true, false, Returns))]);
      Alive(r) && !Alive(Step(r, Deliver(now, Some(later), [throws, throws])))
  {
    InitializeThenTick(content, cron, next);
    var r, throws := Fired(Trim(cron), next), Beat(false, false, ThrowsBefore);
    var beats := [throws, throws];
    var t := TryExecute(Taken(r), now, Some(later), beats);
    assert Execute(Taken(r), now, beats) == Counted(Taken(r)).(at := 1, ok := false);
    assert Recover(t.(ok := true), 0, now, Some(later), beats).runner == t.runner;
  }

  /** The runner after its trigger failed and the retry has fired. */
  function Retried(r: Runner): Runner {
    r.(inbox := [Command(1, true)], retryLease := Some(1), executions := r.executions + 1, originals := r.originals + [0])
  }

  lemma RetryIsArmed(r: Runner, now: int, next: Option<int>)
    requires r.enabled && r.retryLease.None? && r.retrySlot.None? && r.inbox == [Command(0, false)]
    ensures Step(Step(r, Deliver(now, next, [Beat(false, false, ThrowsBefore)])), Tick(Beat(false, true, Returns)))
            == Retried(r)
  {
    var beats := [Beat(false, false, ThrowsBefore)];
    var t := TryExecute(Taken(r), now, next, beats);
    assert Execute(Taken(r), now, beats) == Counted(Taken(r)).(at := 1, ok := false);
    var u := Recover(t.(ok := true), 0, now, next, beats);
    assert u.runner == t.runner.(retrySlot := Some(Callback(1, Command(1, true))), retryLease := Some(1));
  }

  /** Only the sixth and the tenth call throw: storing the next run, and arming again. */
  function StoringAndRearmingThrow(): seq<Beat> {
    var ok, throws := Beat(false, false, Returns), Beat(false, false, ThrowsBefore);
    [ok, ok, ok, ok, ok, throws, ok, ok, ok, throws]
  }

  /** The turn arms a callback, and is dead all the same. */
  ghost predicate DiesRearming(r: Runner, now: int, next: int) {
    var a := Deliver(now, Some(next), StoringAndRearmingThrow());
    Alive(r) && ArmedIn(Handle(r, a), false) && !Alive(Step(r, a))
  }

  lemma AwaitReturns(t: Turn, beats: seq<Beat>, e: Effect)
    requires t.ok && BeatAt(beats, t.at) == Beat(false, false, Returns)
    ensures Await(t, beats, e) == Turn(Apply(t.runner, e), t.at + 1, true, t.taken + [e], t.fired)
  {
  }

  lemma AwaitThrows(t: Turn, beats: seq<Beat>, e: Effect)
    requires t.ok && BeatAt(beats, t.at) == Beat(false, false, ThrowsBefore)
    ensures Await(t, beats, e) == t.(at := t.at + 1, ok := false)
  {
  }

  lemma StoringThrows(t: Turn, next: int)
    requires t.ok && t.at == 3 && Scheduled(t.runner) && t.runner.triggerLease.Some? && t.runner.triggerSlot.None?
    ensures var u := Finish(t, StoringAndRearmingThrow(), Some(next));
      && u.runner == t.runner.(triggerSlot := Some(Callback(1, Command(0, false))), triggerLease := Some(1))
      && u.at == 6 && !u.ok && ArmedIn(u, false)
  {
    var beats := StoringAndRearmingThrow();
    var u := Await(t, beats, CancelTrigger(t.runner.triggerLease.value));
    AwaitReturns(t, beats, CancelTrigger(t.runner.triggerLease.value));
    AwaitReturns(u, beats, ArmTrigger);
    var v := Await(u, beats, ArmTrigger);
    assert v.taken[|u.taken|] == ArmTrigger;
    AwaitThrows(v.(runner := v.runner.(triggerLease := Some(1))), beats, NextRun(next));
  }

  lemma RearmingThrows(t: Turn, next: int)
    requires t.ok && t.at == 8 && Scheduled(t.runner) && t.runner.triggerLease == Some(1)
    requires t.runner.triggerSlot == Some(Callback(1, Command(0, false)))
    ensures var u := Finish(t, StoringAndRearmingThrow(), Some(next));
      u.runner == t.runner.(triggerSlot := None) && (ArmedIn(t, false) ==> ArmedIn(u, false))
  {
    var beats := StoringAndRearmingThrow();
    AwaitReturns(t, beats, CancelTrigger(1));
    AwaitArms(t, beats, CancelTrigger(1), false);
    AwaitThrows(Await(t, beats, CancelTrigger(1)), beats, ArmTrigger);
  }

  lemma ExecutedAndCancelled(q: Runner, now: int)
    requires q.retrySlot.None? && q.retryLease.Some?
    ensures var beats := StoringAndRearmingThrow();
      var t := CancelRetryLease(Execute(q, now, beats), beats);
      && t.runner == q.(executions := q.executions + 1, lastRunAt := Some(now), errorCount := 0, retryLease := None)
      && t.at == 3 && t.ok
  {
    var beats := StoringAndRearmingThrow();
    AwaitReturns(Counted(q), beats, Nothing);
    AwaitReturns(Await(Counted(q), beats, Nothing), beats, Completed(now));
    AwaitReturns(Execute(q, now, beats), beats, CancelRetry(q.retryLease.value));
  }

  lemma RecoveryRearms(t: Turn, now: int, next: int)
    requires t.ok && t.at == 6 && Scheduled(t.runner) && t.runner.triggerLease == Some(1) && ArmedIn(t, false)
    requires t.runner.triggerSlot == Some(Callback(1, Command(0, false))) && t.runner.retrySlot.None?
    requires t.runner.inbox == []
    ensures var u := Recover(t, 1, now, Some(next), StoringAndRearmingThrow());
      !Pending(u.runner) && Scheduled(u.runner) && ArmedIn(u, false)
  {
    var beats := StoringAndRearmingThrow();
    AwaitReturns(t, beats, Failed(now));
    AwaitArms(t, beats, Failed(now), false);
    var failed := Await(t, beats, Failed(now));
    AwaitReturns(failed, beats, Nothing);
    AwaitArms(failed, beats, Nothing, false);
    RearmingThrows(Await(failed, beats, Nothing), next);
  }

  lemma RearmingKills(r: Runner, now: int, next: int)
    requires Scheduled(r) && r.triggerSlot.None? && r.retrySlot.None? && r.triggerLease.Some? && r.retryLease.Some?
    requires r.inbox == [Command(1, true)]
    ensures DiesRearming(r, now, next)
  {
    var beats := StoringAndRearmingThrow();
    ExecutedAndCancelled(Taken(r), now);
    StoringThrows(CancelRetryLease(Execute(Taken(r), now, beats), beats), next);
    var t := TryExecute(Taken(r), now, Some(next), beats);
    CaughtSparse(t);
    RecoveryRearms(t.(ok := true), now, next);
  }

  /**
   Out of retries, an arming call that took effect is not enough: the failed turn schedules once more, cancels what
   it has armed, and leaves nothing if it cannot arm again.
   */
  lemma RearmingKillsSchedule(content: string, cron: string, now: int, next: int)
    requires !IsBlank(content) && !IsBlank(Trim(cron))
    ensures var initialize := Initialize(content, true, cron, Some(next), []);
      var fired := Run(NEW_RUNNER, [initialize, Tick(Beat(true, false, Returns))]);
      var failed := Step(fired, Deliver(now, Some(next), [Beat(false, false, ThrowsBefore)]));
      DiesRearming(Step(failed, Tick(Beat(false, true, Returns))), now, next)
  {
    InitializeThenTick(content, cron, next);
    RetryIsArmed(Fired(Trim(cron), next), now, Some(next));
    RearmingKills(Retried(Fired(Trim(cron), next)), now, next);
  }

  // ---- Leases ----

  ghost predicate Leased(slot: Option<Callback>, lease: Option<nat>) {
    slot.Some? ==> lease == Some(slot.value.generation)
  }

  /** Whatever is armed can be cancelled by the lease that the runner holds. */
  ghost predicate LeasesMatch(r: Runner) {
    Leased(r.triggerSlot, r.triggerLease) && Leased(r.retrySlot, r.retryLease)
  }

  /** Calls that throw have not taken effect. */
  ghost predicate Clean(beats: seq<Beat>) {
    forall i :: 0 <= i < |beats| ==> !beats[i].outcome.ThrowsAfter?
  }

  /**
   A callback that replaces another is out of reach of every lease on its predecessors; one that replaces none is
   again the first, and a lease on an earlier first one reaches it.
   */
  lemma ReplacementIsReachedExactly(slot: Option<Callback>, command: Command, lease: nat)
    ensures Cancelled(Armed(slot, command), lease) == None
       <==> lease == if slot.Some? then slot.value.generation + 1 else 1
    ensures slot.Some? && lease <= slot.value.generation ==> Cancelled(Armed(slot, command), lease) == Armed(slot, command)
  {
  }

  /** A lease is forgotten when cancelling it returned, and then only. */
  lemma ForgottenExactly(t: Turn, beats: seq<Beat>)
    ensures var u := CancelRetryLease(t, beats);
      u.runner.retryLease == (if u.ok then None else t.runner.retryLease) && u.runner.triggerLease == t.runner.triggerLease
    ensures var u := CancelTriggerLease(t, beats);
      u.runner.triggerLease == (if u.ok then None else t.runner.triggerLease) && u.runner.retryLease == t.runner.retryLease
  {
  }

  /** A lease is kept when arming returned, and then only: it names the callback that was armed. */
  lemma KeptExactly(t: Turn, beats: seq<Beat>, attempt: int)
    ensures var (u, v) := (CancelRetryLease(t, beats), ScheduleRetry(t, beats, attempt));
      && (v.ok ==> v.runner.retrySlot.Some? && v.runner.retryLease == Some(v.runner.retrySlot.value.generation))
      && (!v.ok ==> v.runner.retryLease == u.runner.retryLease)
  {
  }

  lemma AwaitKeepsLeases(t: Turn, beats: seq<Beat>, e: Effect)
    requires LeasesMatch(t.runner) && !e.ArmTrigger? && !e.ArmRetry?
    ensures LeasesMatch(Await(t, beats, e).runner)
  {
  }

  lemma CancelRetryKeepsLeases(t: Turn, beats: seq<Beat>)
    requires LeasesMatch(t.runner) && Clean(beats)
    ensures var u := CancelRetryLease(t, beats).runner; LeasesMatch(u)
  {
    if t.runner.retryLease.Some? {
      AwaitKeepsLeases(t, beats, CancelRetry(t.runner.retryLease.value));
    }
  }

  lemma CancelTriggerKeepsLeases(t: Turn, beats: seq<Beat>)
    requires LeasesMatch(t.runner) && Clean(beats)
    ensures LeasesMatch(CancelTriggerLease(t, beats).runner)
  {
    if t.runner.triggerLease.Some? {
      AwaitKeepsLeases(t, beats, CancelTrigger(t.runner.triggerLease.value));
    }
  }

  lemma FinishKeepsLeases(t: Turn, beats: seq<Beat>, next: Option<int>)
    requires LeasesMatch(t.runner) && Clean(beats)
    ensures LeasesMatch(ScheduleNextRun(t, beats, next).runner) && LeasesMatch(Finish(t, beats, next).runner)
  {
    if !(!t.ok || !t.runner.enabled || IsBlank(t.runner.cron) || next.None?) {
      var u := if t.runner.triggerLease.Some? then Await(t, beats, CancelTrigger(t.runner.triggerLease.value)) else t;
      if t.runner.triggerLease.Some? {
        AwaitKeepsLeases(t, beats, CancelTrigger(t.runner.triggerLease.value));
      }
      var v := Await(u, beats, ArmTrigger);
      var w := if v.ok && v.runner.triggerSlot.Some?
               then v.(runner := v.runner.(triggerLease := Some(v.runner.triggerSlot.value.generation))) else v;
      assert LeasesMatch(w.runner);
      AwaitKeepsLeases(w, beats, NextRun(next.value));
    }
    AwaitKeepsLeases(ScheduleNextRun(t, beats, next), beats, Nothing);
  }

  lemma ScheduleRetryKeepsLeases(t: Turn, beats: seq<Beat>, attempt: int)
    requires LeasesMatch(t.runner) && Clean(beats)
    ensures LeasesMatch(ScheduleRetry(t, beats, attempt).runner)
  {
    CancelRetryKeepsLeases(t, beats);
  }

  lemma TwoAwaitsKeepLeases(t: Turn, beats: seq<Beat>, a: Effect, b: Effect)
    requires LeasesMatch(t.runner) && !a.ArmTrigger? && !a.ArmRetry? && !b.ArmTrigger? && !b.ArmRetry?
    ensures LeasesMatch(AwaitTwo(t, beats, a, b).runner)
  {
    var u := Await(t, beats, a);
    AwaitKeepsLeases(t, beats, a);
    AwaitKeepsLeases(u, beats, b);
  }

  lemma TryExecuteKeepsLeases(r: Runner, now: int, next: Option<int>, beats: seq<Beat>)
    requires LeasesMatch(r) && Clean(beats)
    ensures LeasesMatch(TryExecute(r, now, next, beats).runner)
  {
    TwoAwaitsKeepLeases(Counted(r), beats, Nothing, Completed(now));
    CancelRetryKeepsLeases(Execute(r, now, beats), beats);
    FinishKeepsLeases(CancelRetryLease(Execute(r, now, beats), beats), beats, next);
  }

  lemma RecoverKeepsLeases(t: Turn, attempt: int, now: int, next: Option<int>, beats: seq<Beat>)
    requires LeasesMatch(t.runner) && Clean(beats)
    ensures LeasesMatch(Recover(t, attempt, now, next, beats).runner)
  {
    if attempt < MAX_RETRY_ATTEMPTS {
      ScheduleRetryKeepsLeases(t, beats, attempt + 1);
    } else {
      var failed := Await(t, beats, Failed(now));
      AwaitKeepsLeases(t, beats, Failed(now));
      AwaitKeepsLeases(failed, beats, Nothing);
      FinishKeepsLeases(Await(failed, beats, Nothing), beats, next);
    }
  }

  lemma TriggerKeepsLeases(r: Runner, command: Command, now: int, next: Option<int>, beats: seq<Beat>)
    requires LeasesMatch(r) && Clean(beats)
    ensures LeasesMatch(HandleTrigger(r, command, now, next, beats).runner)
  {
    if r.enabled {
      TryExecuteKeepsLeases(r, now, next, beats);
      var t := TryExecute(r, now, next, beats);
      RecoverKeepsLeases(t.(ok := true), command.attempt, now, next, beats);
    }
  }

  ghost predicate CleanAction(a: Action) {
    match a
    case Receive(_) => true
    case Tick(_) => true
    case Deliver(_, _, beats) => Clean(beats)
    case Initialize(_, _, _, _, beats) => Clean(beats)
    case Disable(beats) => Clean(beats)
    case Enable(_, beats) => Clean(beats)
    case Activate(_, _, _) => true
  }

  lemma StepKeepsLeases(r: Runner, a: Action)
    requires LeasesMatch(r) && CleanAction(a) && !a.Activate?
    ensures LeasesMatch(Step(r, a))
  {
    match a
    case Receive(_) =>
    case Tick(_) =>
    case Deliver(now, next, beats) =>
      if r.inbox != [] {
        TriggerKeepsLeases(Taken(r), r.inbox[0], now, next, beats);
      }
    case Initialize(content, on, cron, next, beats) =>
      AwaitKeepsLeases(Start(r), beats, Initialized(on, Trim(cron)));
      FinishKeepsLeases(Await(Start(r), beats, Initialized(on, Trim(cron))), beats, next);
    case Disable(beats) =>
      var t := CancelTriggerLease(Start(r), beats);
      CancelTriggerKeepsLeases(Start(r), beats);
      CancelRetryKeepsLeases(t, beats);
      AwaitKeepsLeases(CancelRetryLease(t, beats), beats, Disabled);
      AwaitKeepsLeases(Await(CancelRetryLease(t, beats), beats, Disabled), beats, Nothing);
    case Enable(next, beats) =>
      AwaitKeepsLeases(Start(r), beats, Enabled);
      FinishKeepsLeases(if r.enabled then Start(r) else Await(Start(r), beats, Enabled), beats, next);
  }

  /** An activation schedules the next run only when it is missing or past. */
  predicate Revives(r: Runner, now: int, next: Option<int>) {
    Scheduled(r) && next.Some? && !(r.nextRunAt.Some? && r.nextRunAt.value > now)
  }

  /**
   What an activation may do to callbacks that are armed. It has lost both leases, so an armed retry must fire before
   the activation ends, and an armed trigger must fire or be replaced by one whose lease comes back.
   */
  predicate ActivationSafe(r: Runner, now: int, next: Option<int>, beats: seq<Beat>) {
    var arming, storing := BeatAt(beats, 0), BeatAt(beats, 1);
    if !Revives(r, now, next) then r.triggerSlot.None? && r.retrySlot.None?
    else match arming.outcome
      case Returns => r.retrySlot.None? || arming.retryFires || storing.retryFires
      case ThrowsBefore =>
        (r.triggerSlot.None? || arming.triggerFires) && (r.retrySlot.None? || arming.retryFires)
      case ThrowsAfter => false
  }

  lemma ActivationKeepsLeasesExactly(r: Runner, now: int, next: Option<int>, beats: seq<Beat>)
    ensures LeasesMatch(Step(r, Activate(now, next, beats))) <==> ActivationSafe(r, now, next, beats)
  {
    if Revives(r, now, next) {
      var t := Start(r.(triggerLease := None, retryLease := None));
      var v := Await(t, beats, ArmTrigger);
      assert v.at == 1;
      var w := if v.ok && v.runner.triggerSlot.Some?
               then v.(runner := v.runner.(triggerLease := Some(v.runner.triggerSlot.value.generation))) else v;
      assert HandleActivate(r, now, next, beats) == Await(w, beats, NextRun(next.value));
    }
  }

  ghost predicate LeasesMatchThroughout(r: Runner, actions: seq<Action>)
    decreases |actions|
  {
    LeasesMatch(r) && (actions == [] || LeasesMatchThroughout(Step(r, actions[0]), actions[1..]))
  }

  ghost predicate ActivationsSafe(r: Runner, actions: seq<Action>)
    decreases |actions|
  {
    || actions == []
    || (var a := actions[0];
        && (a.Activate? ==> ActivationSafe(r, a.now, a.next, a.beats))
        && ActivationsSafe(Step(r, a), actions[1..]))
  }

  /**
   When calls that throw have no effect, no armed callback is ever out of reach in a run exactly if none was at its
   start and every activation is safe where it comes.
   */
  lemma {:induction false} LeasesMatchInRuns(r: Runner, actions: seq<Action>)
    requires forall a :: a in actions ==> CleanAction(a)
    ensures LeasesMatchThroughout(r, actions) <==> LeasesMatch(r) && ActivationsSafe(r, actions)
    decreases |actions|
  {
    if actions != [] {
      var a := actions[0];
      assert a in actions && forall b :: b in actions[1..] ==> b in actions;
      if a.Activate? {
        ActivationKeepsLeasesExactly(r, a.now, a.next, a.beats);
      } else if LeasesMatch(r) {
        StepKeepsLeases(r, a);
      }
      LeasesMatchInRuns(Step(r, a), actions[1..]);
    }
  }

  lemma CancelTriggerDisarms(t: Turn, beats: seq<Beat>)
    requires t.ok
    ensures var u := CancelTriggerLease(t, beats);
      u.ok && !u.fired ==>
        && u.runner.triggerSlot == (if Leased(t.runner.triggerSlot, t.runner.triggerLease) then None else t.runner.triggerSlot)
        && u.runner.retrySlot == t.runner.retrySlot && u.runner.retryLease == t.runner.retryLease
  {
  }

  lemma CancelRetryDisarms(t: Turn, beats: seq<Beat>)
    requires t.ok
    ensures var u := CancelRetryLease(t, beats);
      u.ok && !u.fired ==>
        && u.runner.retrySlot == (if Leased(t.runner.retrySlot, t.runner.retryLease) then None else t.runner.retrySlot)
        && u.runner.triggerSlot == t.runner.triggerSlot && !t.fired
  {
  }

  lemma AwaitKeepsSlots(t: Turn, beats: seq<Beat>, e: Effect)
    requires e.Disabled? || e.Nothing?
    ensures var u := Await(t, beats, e); (u.ok ==> t.ok) && (!u.fired ==> !t.fired && SameSlots(u.runner, t.runner))
    ensures Await(t, beats, e).ok && e.Disabled? ==> !Await(t, beats, e).runner.enabled
    ensures !t.runner.enabled ==> !Await(t, beats, e).runner.enabled
  {
  }

  /**
   A disable that succeeds and meets no firing callback takes out exactly the callbacks that the leases name: nothing
   is left armed if and only if they matched.
   */
  lemma DisarmsExactly(r: Runner, beats: seq<Beat>)
    requires var t := HandleDisable(r, beats); t.ok && !t.fired
    ensures var u := HandleDisable(r, beats).runner;
      && !u.enabled && (u.triggerSlot.None? && u.retrySlot.None? <==> LeasesMatch(r))
      && u.triggerSlot == (if Leased(r.triggerSlot, r.triggerLease) then None else r.triggerSlot)
      && u.retrySlot == (if Leased(r.retrySlot, r.retryLease) then None else r.retrySlot)
  {
    var t := CancelTriggerLease(Start(r), beats);
    var u := CancelRetryLease(t, beats);
    AwaitKeepsSlots(u, beats, Disabled);
    AwaitKeepsSlots(Await(u, beats, Disabled), beats, Nothing);
    CancelTriggerDisarms(Start(r), beats);
    CancelRetryDisarms(t, beats);
  }

  lemma ActivationForgets(r: Runner, now: int)
    requires r.nextRunAt.Some? && r.nextRunAt.value > now
    ensures Step(r, Activate(now, None, [])) == r.(triggerLease := None, retryLease := None)
  {
  }

  lemma DisarmsNothing(r: Runner)
    requires r.triggerLease.None? && r.retryLease.None?
    ensures var u := Step(r, Disable([])); !u.enabled && u.triggerSlot == r.triggerSlot
  {
    AwaitReturns(Start(r), [], Disabled);
    AwaitReturns(Await(Start(r), [], Disabled), [], Nothing);
  }

  /** A run that ends disabled with the callback of the old activation still armed. */
  lemma DisabledButArmed(content: string, cron: string, now: int, next: int)
    requires !IsBlank(content) && !IsBlank(Trim(cron)) && now < next
    ensures var end := Run(NEW_RUNNER, [Initialize(content, true, cron, Some(next), []), Activate(now, None, []), Disable([])]);
      !end.enabled && end.triggerSlot == Some(Callback(1, Command(0, false)))
  {
    var first, second, last := Initialize(content, true, cron, Some(next), []), Activate(now, None, []), Disable([]);
    RunCons(NEW_RUNNER, first, [second, last]);
    InitializedRunner(content, cron, next);
    var r := Step(NEW_RUNNER, first);
    RunTwo(r, second, last);
    ActivationForgets(r, now);
    DisarmsNothing(Step(r, second));
  }
}
