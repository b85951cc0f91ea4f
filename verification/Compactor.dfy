/** One round of the tombstone compactor over all its targets. */
module Compactor {
  import opened Text

  /** How a call ends: it returns, fails, or is cancelled. */
  datatype Ending = Returned | Failed | Cancelled

  /**
   A compaction target and what this round meets there: the watermark of its projection, if one is known, and
   how reading it, ensuring the actor, and dispatching end. A dispatch that does not return may have been sent.
   */
  datatype Target = Target(actorId: string, watermark: Option<int>, read: Ending, ensured: Ending, dispatch: Ending, sent: bool)

  /** A compaction command for the store of this actor. */
  datatype Command = Command(actorId: string, safeVersion: int)

  predicate HasWatermark(t: Target) {
    t.watermark.Some? && t.watermark.value > 0
  }

  function EndingOf(t: Target): Ending {
    if !t.read.Returned? then t.read
    else if !HasWatermark(t) then Returned
    else if !t.ensured.Returned? then t.ensured
    else t.dispatch
  }

  /** The command that reaches the target, if one does. */
  function CommandFor(t: Target): seq<Command> {
    if t.read.Returned? && HasWatermark(t) && t.ensured.Returned? && (t.dispatch.Returned? || t.sent)
    then [Command(t.actorId, t.watermark.value)] else []
  }

  /** The commands of a round from a target on; a cancellation ends it. */
  function RoundFrom(targets: seq<Target>, i: nat): seq<Command>
    requires i <= |targets|
    decreases |targets| - i
  {
    if i == |targets| then []
    else CommandFor(targets[i]) + if EndingOf(targets[i]).Cancelled? then [] else RoundFrom(targets, i + 1)
  }

  function Round(targets: seq<Target>): seq<Command> {
    RoundFrom(targets, 0)
  }

  /** The calls up to the dispatch went well, and there was something to dispatch. */
  predicate GetsToDispatch(t: Target) {
    t.read == Returned && t.watermark.Some? && t.watermark.value >= 1 && t.ensured == Returned
  }

  /** Some call of the target was cancelled: the first that did not return. */
  predicate Cancels(t: Target) {
    || t.read == Cancelled
    || (t.read == Returned && t.watermark.Some? && t.watermark.value >= 1 && t.ensured == Cancelled)
    || (GetsToDispatch(t) && t.dispatch == Cancelled)
  }

  lemma CancelsExactly(t: Target)
    ensures EndingOf(t).Cancelled? <==> Cancels(t)
  {
  }

  method Compact(t: Target, before: seq<Command>) returns (commands: seq<Command>, ending: Ending)
    ensures commands == before + CommandFor(t) && ending == EndingOf(t)
  {
    commands := before;
    assert before + [] == before;
    if !t.read.Returned? {
      return before, t.read;
    }
    if t.watermark.None? || t.watermark.value <= 0 {
      return before, Returned;
    }
    if !t.ensured.Returned? {
      return before, t.ensured;
    }
    if t.dispatch.Returned? || t.sent {
      commands := commands + [Command(t.actorId, t.watermark.value)];
    }
    return commands, t.dispatch;
  }

  lemma Associate(a: seq<Command>, b: seq<Command>, c: seq<Command>)
    ensures a + (b + c) == (a + b) + c
  {
  }

  /** A round that goes on from what was sent already. */
  function Continue(sent: seq<Command>, targets: seq<Target>, i: nat): seq<Command>
    requires i <= |targets|
    decreases |targets| - i
  {
    if i == |targets| then sent
    else if EndingOf(targets[i]).Cancelled? then sent + CommandFor(targets[i])
    else Continue(sent + CommandFor(targets[i]), targets, i + 1)
  }

  lemma {:induction false} ContinueIs(sent: seq<Command>, targets: seq<Target>, i: nat)
    requires i <= |targets|
    ensures Continue(sent, targets, i) == sent + RoundFrom(targets, i)
    decreases |targets| - i
  {
    if i < |targets| {
      if EndingOf(targets[i]).Cancelled? {
        assert CommandFor(targets[i]) + [] == CommandFor(targets[i]);
      } else {
        ContinueIs(sent + CommandFor(targets[i]), targets, i + 1);
        Associate(sent, CommandFor(targets[i]), RoundFrom(targets, i + 1));
      }
    }
  }

  /** A target that fails is logged and passed over; only a cancellation leaves the loop. */
  method RunOnce(targets: seq<Target>) returns (commands: seq<Command>, cancelled: bool)
    ensures commands == Round(targets)
    ensures cancelled <==> exists i :: 0 <= i < |targets| && Cancels(targets[i])
  {
    ContinueIs([], targets, 0);
    commands := [];
    for i := 0 to |targets|
      invariant Continue(commands, targets, i) == Round(targets)
      invariant forall j :: 0 <= j < i ==> !Cancels(targets[j])
    {
      var ending: Ending;
      CancelsExactly(targets[i]);
      commands, ending := Compact(targets[i], commands);
      if ending.Cancelled? {
        return commands, true;
      }
    }
    cancelled := false;
  }

  lemma RoundStep(targets: seq<Target>, i: nat)
    requires i < |targets|
    ensures RoundFrom(targets, i)
         == CommandFor(targets[i]) + if EndingOf(targets[i]).Cancelled? then [] else RoundFrom(targets, i + 1)
  {
  }

  /** Only the targets from `i` on matter to a round from there. */
  lemma {:induction false} RoundSuffix(all: seq<Target>, after: seq<Target>, k: nat, i: nat)
    requires |all| == k + |after| && i <= |after|
    requires forall j {:trigger after[j]} :: i <= j < |after| ==> all[k + j] == after[j]
    ensures RoundFrom(all, k + i) == RoundFrom(after, i)
    decreases |after| - i
  {
    if i < |after| {
      assert all[k + i] == after[i];
      RoundSuffix(all, after, k, i + 1);
      RoundStep(all, k + i);
      RoundStep(after, i);
    }
  }

  lemma {:induction false} RoundPrefix(before: seq<Target>, after: seq<Target>, i: nat)
    requires i <= |before| && forall j :: 0 <= j < |before| ==> !Cancels(before[j])
    ensures RoundFrom(before + after, i) == RoundFrom(before, i) + RoundFrom(before + after, |before|)
    decreases |before| - i
  {
    if i < |before| {
      CancelsExactly(before[i]);
      RoundPrefix(before, after, i + 1);
      Associate(CommandFor(before[i]), RoundFrom(before, i + 1), RoundFrom(before + after, |before|));
    }
  }

  /** The commands that are sent to the first `n` targets when all of them get their turn. */
  function SentToFirst(targets: seq<Target>, n: nat): seq<Command>
    requires n <= |targets|
  {
    if n == 0 then []
    else
      var t := targets[n - 1];
      SentToFirst(targets, n - 1)
      + if GetsToDispatch(t) && (t.dispatch == Returned || t.sent) then [Command(t.actorId, t.watermark.value)] else []
  }

  /** Where a round ends: at the first cancelled target, or after the last. */
  ghost predicate EndsAfter(targets: seq<Target>, n: nat) {
    && n <= |targets| && (forall j :: 0 <= j < n - 1 ==> !Cancels(targets[j]))
    && (n == |targets| || (n > 0 && Cancels(targets[n - 1])))
  }

  lemma SentToOneMore(targets: seq<Target>, i: nat)
    requires i < |targets|
    ensures SentToFirst(targets, i + 1) == SentToFirst(targets, i) + CommandFor(targets[i])
  {
  }

  lemma {:induction false} RoundOfFirst(targets: seq<Target>, n: nat, i: nat)
    requires EndsAfter(targets, n) && i <= n && (i == n ==> n == |targets|)
    ensures Continue(SentToFirst(targets, i), targets, i) == SentToFirst(targets, n)
    decreases n - i
  {
    if i < n {
      CancelsExactly(targets[i]);
      SentToOneMore(targets, i);
      if !Cancels(targets[i]) {
        RoundOfFirst(targets, n, i + 1);
      }
    }
  }

  /**
   A round sends, in order, one command to each target up to the first cancelled one whose watermark could be read and
   is positive, whose actor could be ensured, and whose dispatch returned or was sent all the same.
   */
  lemma RoundExactly(targets: seq<Target>, n: nat)
    requires EndsAfter(targets, n)
    ensures Round(targets) == SentToFirst(targets, n)
  {
    RoundOfFirst(targets, n, 0);
    ContinueIs([], targets, 0);
    assert [] + Round(targets) == Round(targets);
  }

  /** Targets do not affect each other, unless one is cancelled: a round is what each target gets by itself. */
  lemma TargetsAreIsolated(before: seq<Target>, after: seq<Target>)
    requires forall j :: 0 <= j < |before| ==> !Cancels(before[j])
    ensures Round(before + after) == Round(before) + Round(after)
  {
    RoundPrefix(before, after, 0);
    RoundSuffix(before + after, after, |before|, 0);
  }

  /** Every command carries a positive watermark of its own target, and is sent only after it was read. */
  lemma {:induction false} CommandsCarryWatermarks(targets: seq<Target>, i: nat, command: Command)
    requires i <= |targets| && command in RoundFrom(targets, i)
    ensures command.safeVersion > 0
    ensures exists j :: i <= j < |targets| && targets[j].actorId == command.actorId && targets[j].read.Returned?
                        && targets[j].watermark == Some(command.safeVersion)
    decreases |targets| - i
  {
    if command !in CommandFor(targets[i]) {
      CommandsCarryWatermarks(targets, i + 1, command);
    }
  }
}
