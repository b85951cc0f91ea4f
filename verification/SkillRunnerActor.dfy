/** The skill runner as the object whose handlers update its fields, each proved against its turn. */
module SkillRunnerActor {
  import opened Text
  import opened SkillRunner

  class SkillRunnerGAgent {
    var enabled: bool
    var cron: string
    var nextRunAt: Option<int>
    var lastRunAt: Option<int>
    var errorCount: nat
    var triggerLease: Option<nat>
    var retryLease: Option<nat>

    // The callback service and the actor's stream.
    var triggerSlot: Option<Callback>
    var retrySlot: Option<Callback>
    var inbox: seq<Command>

    // What has been done so far.
    var executions: nat
    ghost var originals: seq<int>

    // The calls awaited in this turn, those of them that took effect, and whether a callback fired.
    var at: nat
    ghost var taken: seq<Effect>
    ghost var fired: bool

    ghost function Model(): Runner
      reads this
    {
      Runner(enabled, cron, nextRunAt, lastRunAt, errorCount, triggerLease, retryLease, triggerSlot, retrySlot, inbox,
             executions, originals)
    }

    ghost function TurnOf(ok: bool): Turn
      reads this
    {
      Turn(Model(), at, ok, taken, fired)
    }

    constructor ()
      ensures Model() == NEW_RUNNER
    {
      enabled, cron, nextRunAt, lastRunAt, errorCount := false, "", None, None, 0;
      triggerLease, retryLease, triggerSlot, retrySlot := None, None, None, None;
      inbox, executions, originals, at, taken, fired := [], 0, [], 0, [], false;
    }

    /** Callbacks that fire go to the actor's stream. */
    method FireCallbacks(b: Beat)
      modifies `inbox, `triggerSlot, `retrySlot, `fired
      ensures Model() == Fire(old(Model()), b) && fired == (old(fired) || Fires(old(Model()), b))
    {
      fired := fired || Fires(Model(), b);
      if b.triggerFires && triggerSlot.Some? {
        inbox := inbox + [triggerSlot.value.command];
        triggerSlot := None;
      }
      if b.retryFires && retrySlot.Some? {
        inbox := inbox + [retrySlot.value.command];
        retrySlot := None;
      }
    }

    method TakeEffect(e: Effect)
      modifies this
      ensures Model() == Apply(old(Model()), e) && taken == old(taken) + [e]
      ensures at == old(at) && fired == old(fired)
    {
      taken := taken + [e];
      match e
      case Nothing =>
      case Completed(now) =>
        lastRunAt := Some(now);
        errorCount := 0;
      case Failed(now) =>
        lastRunAt := Some(now);
        errorCount := errorCount + 1;
      case NextRun(next) => nextRunAt := Some(next);
      case Initialized(on, newCron) =>
        enabled := on;
        cron := newCron;
      case Disabled =>
        enabled := false;
        nextRunAt := None;
      case Enabled => enabled := true;
      case CancelTrigger(lease) =>
        if triggerSlot.Some? && triggerSlot.value.generation == lease {
          triggerSlot := None;
        }
      case CancelRetry(lease) =>
        if retrySlot.Some? && retrySlot.value.generation == lease {
          retrySlot := None;
        }
      case ArmTrigger =>
        triggerSlot := Some(Callback(if triggerSlot.Some? then triggerSlot.value.generation + 1 else 1, Command(0, false)));
      case ArmRetry(attempt) =>
        retrySlot := Some(Callback(if retrySlot.Some? then retrySlot.value.generation + 1 else 1, Command(attempt, true)));
    }

    method Call(e: Effect, beats: seq<Beat>) returns (ok: bool)
      modifies this
      ensures TurnOf(ok) == Await(old(TurnOf(true)), beats, e)
    {
      var b := BeatAt(beats, at);
      FireCallbacks(b);
      if !b.outcome.ThrowsBefore? {
        TakeEffect(e);
      }
      at := at + 1;
      ok := b.outcome.Returns?;
    }

    method CancelRetryLeaseAsync(beats: seq<Beat>) returns (ok: bool)
      modifies this
      ensures TurnOf(ok) == CancelRetryLease(old(TurnOf(true)), beats)
    {
      if retryLease.None? {
        return true;
      }
      ok := Call(CancelRetry(retryLease.value), beats);
      if ok {
        retryLease := None;
      }
    }

    method ScheduleRetryAsync(attempt: int, beats: seq<Beat>) returns (ok: bool)
      modifies this
      ensures TurnOf(ok) == ScheduleRetry(old(TurnOf(true)), beats, attempt)
    {
      ok := CancelRetryLeaseAsync(beats);
      if ok {
        ok := Call(ArmRetry(attempt), beats);
        if ok && retrySlot.Some? {
          retryLease := Some(retrySlot.value.generation);
        }
      }
    }

    method CancelAsync(beats: seq<Beat>) returns (ok: bool)
      modifies this
      ensures TurnOf(ok) == CancelTriggerLease(old(TurnOf(true)), beats)
    {
      if triggerLease.None? {
        return true;
      }
      ok := Call(CancelTrigger(triggerLease.value), beats);
      if ok {
        triggerLease := None;
      }
    }

    method ScheduleNextRunAsync(next: Option<int>, beats: seq<Beat>) returns (ok: bool)
      modifies this
      ensures TurnOf(ok) == ScheduleNextRun(old(TurnOf(true)), beats, next)
    {
      if !enabled || IsBlank(cron) || next.None? {
        return true;
      }
      ok := true;
      if triggerLease.Some? {
        ok := Call(CancelTrigger(triggerLease.value), beats);
      }
      if ok {
        ok := Call(ArmTrigger, beats);
      }
      if ok {
        if triggerSlot.Some? {
          triggerLease := Some(triggerSlot.value.generation);
        }
        ok := Call(NextRun(next.value), beats);
      }
    }

    method FinishAsync(next: Option<int>, beats: seq<Beat>) returns (ok: bool)
      modifies this
      ensures TurnOf(ok) == Finish(old(TurnOf(true)), beats, next)
    {
      ok := ScheduleNextRunAsync(next, beats);
      if ok {
        ok := Call(Nothing, beats);
      }
    }

    method ExecuteAsync(now: int, beats: seq<Beat>) returns (ok: bool)
      requires at == 0 && taken == [] && !fired
      modifies this
      ensures TurnOf(ok) == Execute(old(Model()), now, beats)
    {
      executions := executions + 1;
      ok := Call(Nothing, beats);
      if ok {
        ok := Call(Completed(now), beats);
      }
    }

    method TryExecuteAsync(now: int, next: Option<int>, beats: seq<Beat>) returns (ok: bool)
      requires at == 0 && taken == [] && !fired
      modifies this
      ensures TurnOf(ok) == TryExecute(old(Model()), now, next, beats)
    {
      ok := ExecuteAsync(now, beats);
      if ok {
        ok := CancelRetryLeaseAsync(beats);
      }
      if ok {
        ok := FinishAsync(next, beats);
      }
    }

    method RecoverAsync(attempt: int, now: int, next: Option<int>, beats: seq<Beat>) returns (ok: bool)
      modifies this
      ensures TurnOf(ok) == Recover(old(TurnOf(true)), attempt, now, next, beats)
    {
      if attempt < MAX_RETRY_ATTEMPTS {
        ok := ScheduleRetryAsync(attempt + 1, beats);
        return;
      }
      ok := Call(Failed(now), beats);
      if ok {
        ok := Call(Nothing, beats);
      }
      if ok {
        ok := FinishAsync(next, beats);
      }
    }

    method HandleTriggerAsync(command: Command, now: int, next: Option<int>, beats: seq<Beat>) returns (ok: bool)
      modifies this
      ensures TurnOf(ok) == HandleTrigger(old(Model()), command, now, next, beats)
    {
      at, taken, fired := 0, [], false;
      if !enabled {
        return true;
      }
      ok := TryExecuteAsync(now, next, beats);
      if !ok {
        ok := RecoverAsync(command.attempt, now, next, beats);
      }
    }

    /** The next trigger of the stream is taken out and handled. */
    method Deliver(now: int, next: Option<int>, beats: seq<Beat>) returns (ok: bool)
      requires inbox != []
      modifies this
      ensures TurnOf(ok) == Handle(old(Model()), Action.Deliver(now, next, beats))
    {
      var command := inbox[0];
      inbox := inbox[1..];
      originals := if command.retry then originals else originals + [command.attempt];
      ok := HandleTriggerAsync(command, now, next, beats);
    }

    method HandleInitializeAsync(content: string, on: bool, newCron: string, next: Option<int>, beats: seq<Beat>)
      returns (ok: bool)
      modifies this
      ensures TurnOf(ok) == Handle(old(Model()), Initialize(content, on, newCron, next, beats))
    {
      at, taken, fired := 0, [], false;
      if IsBlank(content) {
        return true;
      }
      ok := Call(Initialized(on, Trim(newCron)), beats);
      if ok {
        ok := FinishAsync(next, beats);
      }
    }

    method HandleDisableAsync(beats: seq<Beat>) returns (ok: bool)
      modifies this
      ensures TurnOf(ok) == Handle(old(Model()), Disable(beats))
    {
      at, taken, fired := 0, [], false;
      ok := CancelAsync(beats);
      if ok {
        ok := CancelRetryLeaseAsync(beats);
      }
      if ok {
        ok := Call(Disabled, beats);
      }
      if ok {
        ok := Call(Nothing, beats);
      }
    }

    method HandleEnableAsync(next: Option<int>, beats: seq<Beat>) returns (ok: bool)
      modifies this
      ensures TurnOf(ok) == Handle(old(Model()), Enable(next, beats))
    {
      at, taken, fired := 0, [], false;
      ok := true;
      if !enabled {
        ok := Call(Enabled, beats);
      }
      ghost var enabling := TurnOf(ok);
      assert HandleEnable(old(Model()), next, beats) == Finish(enabling, beats, next);
      if ok {
        ok := FinishAsync(next, beats);
      }
    }

    method OnActivateAsync(now: int, next: Option<int>, beats: seq<Beat>) returns (ok: bool)
      modifies this
      ensures TurnOf(ok) == Handle(old(Model()), Activate(now, next, beats))
    {
      triggerLease, retryLease, at, taken, fired := None, None, 0, [], false;
      if !enabled || IsBlank(cron) || (nextRunAt.Some? && nextRunAt.value > now) {
        return true;
      }
      ok := ScheduleNextRunAsync(next, beats);
    }
  }
}
