/** The household entity's reasoning: how far apart, how many, and what survives a new activation. */
module Household {
  import opened Text

  const REASONING_DEBOUNCE_SECONDS := 30
  const MAX_ACTIONS_PER_MINUTE := 3

  datatype Safety = Safety(killSwitch: bool, actionsThisMinute: nat, minuteWindowStart: int)

  const NEW_SAFETY := Safety(false, 0, 0)

  /** The part of the state that decides about reasoning. */
  datatype State = State(mode: string, safety: Option<Safety>, lastReasoningTs: int, reasoningCount: nat)

  const NEW_STATE := State("", None, 0, 0)

  /** `Observed` stands for the events that leave this part of the state alone. */
  datatype Event = Initialized | Reasoned(timestamp: int) | ActionExecuted | SafetyChanged(safety: Option<Safety>) | Observed

  // ---- Transitions ----

  function CountAction(safety: Safety, now: int): Safety {
    if now - safety.minuteWindowStart >= 60 then safety.(actionsThisMinute := 1, minuteWindowStart := now)
    else safety.(actionsThisMinute := safety.actionsThisMinute + 1)
  }

  /** One transition; counting an action reads the clock, even when an old event is applied again. */
  function Apply(s: State, e: Event, now: int): State {
    match e
    case Initialized => s.(mode := "active", safety := if s.safety.None? then Some(NEW_SAFETY) else s.safety)
    case Reasoned(timestamp) => s.(lastReasoningTs := timestamp, reasoningCount := s.reasoningCount + 1)
    case ActionExecuted => s.(safety := Some(CountAction(if s.safety.None? then NEW_SAFETY else s.safety.value, now)))
    case SafetyChanged(safety) => s.(safety := safety)
    case Observed => s
  }

  /** Too many actions in the minute that is under way. */
  predicate RateLimited(safety: Option<Safety>, now: int) {
    safety.Some? && now - safety.value.minuteWindowStart < 60 && safety.value.actionsThisMinute >= MAX_ACTIONS_PER_MINUTE
  }

  predicate CanReason(s: State, now: int) {
    && !(s.safety.Some? && s.safety.value.killSwitch)
    && Lower(s.mode) != "frozen" && Lower(s.mode) != "sleeping"
    && !RateLimited(s.safety, now)
    && !(s.lastReasoningTs > 0 && now - s.lastReasoningTs < REASONING_DEBOUNCE_SECONDS)
  }

  // ---- Runs ----

  /** The actor, its event log, the readings that each event was last applied with, and the latest reading. */
  datatype World = World(state: State, log: seq<Event>, times: seq<int>, clock: int)

  function NewWorld(clock: int): World {
    World(NEW_STATE, [], [], clock)
  }

  /**
   `Reason` reads the clock when it checks and again when the model has answered, if it answers; `Record` stores
   any other event; `Reactivate` applies the whole log again, the clock reading `readings[i]` at event `i`.
   */
  datatype Action =
    | Reason(start: int, end: int, answers: bool)
    | Record(event: Event, now: int)
    | Reactivate(readings: seq<int>)

  function Replay(log: seq<Event>, readings: seq<int>): State
    requires |log| == |readings|
  {
    if log == [] then NEW_STATE
    else Apply(Replay(log[..|log| - 1], readings[..|log| - 1]), log[|log| - 1], readings[|log| - 1])
  }

  /** The clock does not run backwards, and reasoning is recorded only by reasoning. */
  predicate Timely(w: World, a: Action) {
    match a
    case Reason(start, end, _) => w.clock <= start <= end
    case Record(event, now) => w.clock <= now && !event.Reasoned?
    case Reactivate(readings) => |readings| == |w.log|
  }

  function Step(w: World, a: Action): World
    requires Timely(w, a)
  {
    match a
    case Reason(start, end, answers) =>
      if CanReason(w.state, start) && answers
      then World(Apply(w.state, Reasoned(end), end), w.log + [Reasoned(end)], w.times + [end], end)
      else w.(clock := end)
    case Record(event, now) => World(Apply(w.state, event, now), w.log + [event], w.times + [now], now)
    case Reactivate(readings) => w.(state := Replay(w.log, readings), times := readings)
  }

  predicate TimelyRun(w: World, actions: seq<Action>)
    decreases |actions|
  {
    actions == [] || (Timely(w, actions[0]) && TimelyRun(Step(w, actions[0]), actions[1..]))
  }

  function Run(w: World, actions: seq<Action>): World
    requires TimelyRun(w, actions)
    decreases |actions|
  {
    if actions == [] then w else Run(Step(w, actions[0]), actions[1..])
  }

  // ---- Timestamps ----

  /** When the log says that reasoning was completed. */
  function Timestamps(log: seq<Event>): seq<int> {
    if log == [] then []
    else
      var (init, last) := (log[..|log| - 1], log[|log| - 1]);
      Timestamps(init) + if last.Reasoned? then [last.timestamp] else []
  }

  ghost predicate Spaced(timestamps: seq<int>) {
    forall i :: 0 < i < |timestamps| ==> timestamps[i] - timestamps[i - 1] >= REASONING_DEBOUNCE_SECONDS
  }

  /** The state remembers the last timestamp and how many there are. */
  ghost predicate Remembers(s: State, timestamps: seq<int>) {
    && s.reasoningCount == |timestamps|
    && s.lastReasoningTs == if timestamps == [] then 0 else timestamps[|timestamps| - 1]
  }

  /** The state is what the log gives with the noted readings. */
  ghost predicate IsReplay(w: World) {
    |w.times| == |w.log| && w.state == Replay(w.log, w.times)
  }

  ghost predicate Inv(w: World) {
    var ts := Timestamps(w.log);
    && w.clock > 0 && Spaced(ts) && Remembers(w.state, ts) && IsReplay(w)
    && (ts != [] ==> 0 < ts[|ts| - 1] <= w.clock)
  }

  lemma TimestampsAppend(log: seq<Event>, e: Event)
    ensures Timestamps(log + [e]) == Timestamps(log) + if e.Reasoned? then [e.timestamp] else []
  {
    assert (log + [e])[..|log|] == log;
  }

  /** Whatever the clock says while the log is applied again, the timestamps are remembered. */
  lemma {:induction false} ReplayRemembers(log: seq<Event>, readings: seq<int>)
    requires |log| == |readings|
    ensures Remembers(Replay(log, readings), Timestamps(log))
  {
    if log != [] {
      ReplayRemembers(log[..|log| - 1], readings[..|log| - 1]);
    }
  }

  lemma ReplayAppend(log: seq<Event>, readings: seq<int>, e: Event, now: int)
    requires |log| == |readings|
    ensures Replay(log + [e], readings + [now]) == Apply(Replay(log, readings), e, now)
  {
    assert (log + [e])[..|log|] == log && (readings + [now])[..|log|] == readings;
  }

  lemma LogKeepsInv(w: World, e: Event, now: int)
    requires Inv(w) && w.clock <= now && (e.Reasoned? ==> e.timestamp == now)
    requires e.Reasoned? && w.state.lastReasoningTs > 0 ==> now - w.state.lastReasoningTs >= REASONING_DEBOUNCE_SECONDS
    ensures Inv(World(Apply(w.state, e, now), w.log + [e], w.times + [now], now))
  {
    ReplayAppend(w.log, w.times, e, now);
    TimestampsAppend(w.log, e);
    var (ts, ts') := (Timestamps(w.log), Timestamps(w.log + [e]));
    forall i | 0 < i < |ts'|
      ensures ts'[i] - ts'[i - 1] >= REASONING_DEBOUNCE_SECONDS
    {
      if i < |ts| {
        assert ts'[i] == ts[i] && ts'[i - 1] == ts[i - 1];
      }
    }
  }

  lemma StepKeepsInv(w: World, a: Action)
    requires Inv(w) && Timely(w, a)
    ensures Inv(Step(w, a))
  {
    match a
    case Reason(start, end, answers) =>
      if CanReason(w.state, start) && answers {
        LogKeepsInv(w, Reasoned(end), end);
      }
    case Record(event, now) => LogKeepsInv(w, event, now);
    case Reactivate(readings) => ReplayRemembers(w.log, readings);
  }

  lemma {:induction false} RunKeepsInv(w: World, actions: seq<Action>)
    requires Inv(w) && TimelyRun(w, actions)
    ensures Inv(Run(w, actions))
    decreases |actions|
  {
    if actions != [] {
      StepKeepsInv(w, actions[0]);
      RunKeepsInv(Step(w, actions[0]), actions[1..]);
    }
  }

  // ---- What blocks reasoning ----

  /** The mode has this name, in any letter case. */
  predicate InMode(s: State, name: string) {
    SameIgnoringCase(s.mode, name)
  }

  /**
   An answered reasoning is logged exactly when none of the five blocks holds: the kill switch, the two modes that
   sleep, three actions within the minute, or less than 30 seconds since the last reasoning.
   */
  lemma ReasonsExactly(w: World, start: int, end: int, answers: bool)
    requires Timely(w, Reason(start, end, answers))
    ensures var s := w.state; var w' := Step(w, Reason(start, end, answers));
      var killed := s.safety.Some? && s.safety.value.killSwitch;
      var limited := s.safety.Some? && s.safety.value.actionsThisMinute >= 3 && start < s.safety.value.minuteWindowStart + 60;
      var recent := s.lastReasoningTs > 0 && start < s.lastReasoningTs + 30;
      && (w'.log == w.log + [Reasoned(end)]
          <==> answers && !killed && !InMode(s, "frozen") && !InMode(s, "sleeping") && !limited && !recent)
      && (w'.log != w.log + [Reasoned(end)] ==> w'.log == w.log && w'.state == s)
  {
    LowerIsCaseless(w.state.mode, "frozen");
    LowerIsCaseless(w.state.mode, "sleeping");
    assert Lower("frozen") == "frozen" && Lower("sleeping") == "sleeping";
    assert |w.log + [Reasoned(end)]| != |w.log|;
  }

  /** The settings that were stored last, if any were. */
  function LastSettings(log: seq<Event>): Option<Safety> {
    if log == [] then None
    else if log[|log| - 1].SafetyChanged? then log[|log| - 1].safety
    else LastSettings(log[..|log| - 1])
  }

  predicate Killed(safety: Option<Safety>) {
    safety.Some? && safety.value.killSwitch
  }

  /** Whatever the clock says meanwhile, the kill switch is as the last settings of the log have it. */
  lemma {:induction false} KillSwitchIs(log: seq<Event>, readings: seq<int>)
    requires |log| == |readings|
    ensures Killed(Replay(log, readings).safety) <==> Killed(LastSettings(log))
  {
    if log != [] {
      KillSwitchIs(log[..|log| - 1], readings[..|log| - 1]);
    }
  }

  lemma {:induction false} ModeIs(log: seq<Event>, readings: seq<int>)
    requires |log| == |readings|
    ensures Replay(log, readings).mode == if Initialized in log then "active" else ""
  {
    if log != [] {
      var init, last := log[..|log| - 1], log[|log| - 1];
      assert log == init + [last];
      ModeIs(init, readings[..|log| - 1]);
    }
  }

  /** No event leads into a mode that sleeps: in every reachable state the two checks of the mode let reasoning pass. */
  lemma ModeNeverBlocks(clock: int, actions: seq<Action>)
    requires clock > 0 && TimelyRun(NewWorld(clock), actions)
    ensures var w := Run(NewWorld(clock), actions);
      && w.state.mode == (if Initialized in w.log then "active" else "")
      && !InMode(w.state, "frozen") && !InMode(w.state, "sleeping")
  {
    RunKeepsInv(NewWorld(clock), actions);
    var w := Run(NewWorld(clock), actions);
    ModeIs(w.log, w.times);
    assert "active"[0] != "frozen"[0] && !CasesOfOne("active"[0], "frozen"[0]);
  }

  /** A reachable state whose last settings have the kill switch on. */
  ghost predicate Stopped(w: World) {
    Inv(w) && Killed(LastSettings(w.log))
  }

  predicate ChangesSettings(a: Action) {
    a.Record? && a.event.SafetyChanged?
  }

  lemma StoppedStep(w: World, a: Action)
    requires Stopped(w) && Timely(w, a) && !ChangesSettings(a)
    ensures Stopped(Step(w, a)) && Timestamps(Step(w, a).log) == Timestamps(w.log)
  {
    StepKeepsInv(w, a);
    KillSwitchIs(w.log, w.times);
    if a.Record? {
      assert (w.log + [a.event])[..|w.log|] == w.log;
      TimestampsAppend(w.log, a.event);
    }
  }

  lemma {:induction false} StoppedRun(w: World, actions: seq<Action>)
    requires Stopped(w) && TimelyRun(w, actions) && forall a :: a in actions ==> !ChangesSettings(a)
    ensures Timestamps(Run(w, actions).log) == Timestamps(w.log)
    decreases |actions|
  {
    if actions != [] {
      assert actions[0] in actions && forall a :: a in actions[1..] ==> a in actions;
      StoppedStep(w, actions[0]);
      StoppedRun(Step(w, actions[0]), actions[1..]);
    }
  }

  /**
   After any run, settings with the kill switch on stop all reasoning until settings are stored again, through new
   activations too.
   */
  lemma KillSwitchStops(clock: int, before: seq<Action>, safety: Safety, now: int, actions: seq<Action>)
    requires clock > 0 && TimelyRun(NewWorld(clock), before) && safety.killSwitch
    requires var w := Run(NewWorld(clock), before); var stop := Record(SafetyChanged(Some(safety)), now);
      Timely(w, stop) && TimelyRun(Step(w, stop), actions)
    requires forall a :: a in actions ==> !ChangesSettings(a)
    ensures var w := Run(NewWorld(clock), before); var w' := Step(w, Record(SafetyChanged(Some(safety)), now));
      Timestamps(Run(w', actions).log) == Timestamps(w.log)
  {
    RunKeepsInv(NewWorld(clock), before);
    var w := Run(NewWorld(clock), before);
    var e := SafetyChanged(Some(safety));
    StepKeepsInv(w, Record(e, now));
    TimestampsAppend(w.log, e);
    assert (w.log + [e])[..|w.log|] == w.log;
    StoppedRun(Step(w, Record(e, now)), actions);
  }

  // ---- Windows ----

  /** How many of the timestamps lie between `low` and `high`, both included. */
  function CountIn(timestamps: seq<int>, low: int, high: int): nat {
    if timestamps == [] then 0
    else
      var last := timestamps[|timestamps| - 1];
      CountIn(timestamps[..|timestamps| - 1], low, high) + if low <= last <= high then 1 else 0
  }

  lemma {:induction false} EarlierOnly(timestamps: seq<int>, low: int, high: int, high': int)
    requires high' <= high && forall i :: 0 <= i < |timestamps| ==> timestamps[i] <= high'
    ensures CountIn(timestamps, low, high) == CountIn(timestamps, low, high')
  {
    if timestamps != [] {
      EarlierOnly(timestamps[..|timestamps| - 1], low, high, high');
    }
  }

  lemma {:induction false} SpacedIsAscending(timestamps: seq<int>, i: nat)
    requires Spaced(timestamps) && i < |timestamps| - 1
    ensures timestamps[i] <= timestamps[|timestamps| - 1] - REASONING_DEBOUNCE_SECONDS
  {
    var last := |timestamps| - 1;
    assert timestamps[last] - timestamps[last - 1] >= REASONING_DEBOUNCE_SECONDS;
    if i < last - 1 {
      SpacedIsAscending(timestamps[..last], i);
    }
  }

  lemma {:induction false} WindowBound(timestamps: seq<int>, low: int, high: int)
    requires Spaced(timestamps)
    ensures CountIn(timestamps, low, high) <= if high < low then 0 else (high - low) / REASONING_DEBOUNCE_SECONDS + 1
    decreases |timestamps|
  {
    if timestamps != [] {
      var init, last := timestamps[..|timestamps| - 1], timestamps[|timestamps| - 1];
      if low <= last <= high {
        forall i | 0 <= i < |init|
          ensures init[i] <= last - REASONING_DEBOUNCE_SECONDS
        {
          SpacedIsAscending(timestamps, i);
        }
        EarlierOnly(init, low, high, last - REASONING_DEBOUNCE_SECONDS);
        WindowBound(init, low, last - REASONING_DEBOUNCE_SECONDS);
      } else {
        WindowBound(init, low, high);
      }
    }
  }

  /**
   Over every run in which the clock does not run backwards, through any number of new activations: completed
   reasonings are at least 30 seconds apart, a window of `length` seconds holds at most length / 30 + 1 of them,
   and the state counts all of them.
   */
  lemma ReasoningIsDebounced(clock: int, actions: seq<Action>, low: int, length: nat)
    requires clock > 0 && TimelyRun(NewWorld(clock), actions)
    ensures var w := Run(NewWorld(clock), actions);
      && Spaced(Timestamps(w.log))
      && CountIn(Timestamps(w.log), low, low + length) <= length / REASONING_DEBOUNCE_SECONDS + 1
      && w.state.reasoningCount == |Timestamps(w.log)|
  {
    var start := NewWorld(clock);
    RunKeepsInv(start, actions);
    WindowBound(Timestamps(Run(start, actions).log), low, low + length);
  }

  lemma FirstReasoning(clock: int)
    requires clock > 0
    ensures var start := NewWorld(clock);
      Timely(start, Reason(clock, clock, true))
      && Step(start, Reason(clock, clock, true)) == World(State("", None, clock, 1), [Reasoned(clock)], [clock], clock)
  {
    assert Lower("") == "";
  }

  lemma SecondReasoning(clock: int)
    requires clock > 0
    ensures var w := World(State("", None, clock, 1), [Reasoned(clock)], [clock], clock); var a := Reason(clock + 30, clock + 30, true);
      Timely(w, a) && Step(w, a) == World(State("", None, clock + 30, 2), [Reasoned(clock), Reasoned(clock + 30)], [clock, clock + 30], clock + 30)
  {
    assert Lower("") == "";
    assert [clock] + [clock + 30] == [clock, clock + 30];
    assert [Reasoned(clock)] + [Reasoned(clock + 30)] == [Reasoned(clock), Reasoned(clock + 30)];
  }

  lemma RunTwo(w: World, a: Action, b: Action)
    requires Timely(w, a) && Timely(Step(w, a), b)
    ensures TimelyRun(w, [a, b]) && Run(w, [a, b]) == Step(Step(w, a), b)
  {
    assert [a, b][1..] == [b] && [b][1..] == [];
    assert TimelyRun(Step(w, a), [b]) && Run(Step(w, a), [b]) == Step(Step(w, a), b);
  }

  lemma TwoTimestamps(a: int, b: int)
    requires a <= b
    ensures CountIn(Timestamps([Reasoned(a), Reasoned(b)]), a, b) == 2
  {
    TimestampsAppend([], Reasoned(a));
    TimestampsAppend([Reasoned(a)], Reasoned(b));
    assert [] + [Reasoned(a)] == [Reasoned(a)] && [Reasoned(a)] + [Reasoned(b)] == [Reasoned(a), Reasoned(b)];
    assert Timestamps([Reasoned(a)]) == [a] && Timestamps([Reasoned(a), Reasoned(b)]) == [a, b];
    assert [a][..0] == [] && [a, b][..1] == [a];
    assert CountIn([a], a, b) == 1;
  }

  /** The bound is reached: reasonings exactly 30 seconds apart all go through. */
  lemma BoundIsTight(clock: int)
    requires clock > 0
    ensures var actions := [Reason(clock, clock, true), Reason(clock + 30, clock + 30, true)];
      var start := NewWorld(clock);
      TimelyRun(start, actions) && CountIn(Timestamps(Run(start, actions).log), clock, clock + 30) == 2
  {
    FirstReasoning(clock);
    SecondReasoning(clock);
    RunTwo(NewWorld(clock), Reason(clock, clock, true), Reason(clock + 30, clock + 30, true));
    TwoTimestamps(clock, clock + 30);
  }

  // ---- What a new activation restores ----

  function Start(safety: Option<Safety>): int {
    if safety.Some? then safety.value.minuteWindowStart else 0
  }

  /** The event that opened the minute window under way, if one did since the settings were last replaced. */
  function Opening(log: seq<Event>, readings: seq<int>): Option<nat>
    requires |log| == |readings|
  {
    if log == [] then None
    else
      var (last, init, times) := (|log| - 1, log[..|log| - 1], readings[..|log| - 1]);
      match log[last]
      case SafetyChanged(_) => None
      case ActionExecuted =>
        if readings[last] - Start(Replay(init, times).safety) >= 60 then Some(last) else Opening(init, times)
      case _ => Opening(init, times)
  }

  /** The safety state of a log in which no action opens a window: it depends on no clock. */
  function Unopened(log: seq<Event>): Option<Safety> {
    if log == [] then None
    else
      var (init, last) := (log[..|log| - 1], log[|log| - 1]);
      match last
      case Initialized => if Unopened(init).None? then Some(NEW_SAFETY) else Unopened(init)
      case ActionExecuted =>
        var safety := if Unopened(init).None? then NEW_SAFETY else Unopened(init).value;
        Some(safety.(actionsThisMinute := safety.actionsThisMinute + 1))
      case SafetyChanged(safety) => safety
      case _ => Unopened(init)
  }

  /** How many actions the log holds from position `k` on. */
  function ActionsFrom(log: seq<Event>, k: nat): nat {
    if |log| <= k then 0
    else ActionsFrom(log[..|log| - 1], k) + if log[|log| - 1].ActionExecuted? then 1 else 0
  }

  /** With an opening, that event's reading and the actions from it on decide; without one, the log alone does. */
  ghost predicate SafetyIs(safety: Option<Safety>, log: seq<Event>, readings: seq<int>)
    requires |log| == |readings|
  {
    match Opening(log, readings)
    case None => safety == Unopened(log)
    case Some(k) =>
      && k < |log| && log[k].ActionExecuted? && Unopened(log).Some?
      && safety == Some(Safety(Unopened(log).value.killSwitch, ActionsFrom(log, k), readings[k]))
      && readings[k] - Start(Unopened(log)) >= 60
  }

  lemma {:induction false} ReplayedSafety(log: seq<Event>, readings: seq<int>)
    requires |log| == |readings|
    ensures SafetyIs(Replay(log, readings).safety, log, readings)
  {
    if log != [] {
      var last, init, times := |log| - 1, log[..|log| - 1], readings[..|log| - 1];
      ReplayedSafety(init, times);
      if log[last].ActionExecuted? && readings[last] - Start(Replay(init, times).safety) >= 60 {
        assert ActionsFrom(init, last) == 0 && ActionsFrom(log, last) == 1;
      }
    }
  }

  lemma {:induction false} ActionsBetween(log: seq<Event>, i: nat, k: nat)
    requires i < k < |log| && log[i].ActionExecuted?
    ensures ActionsFrom(log, k) < ActionsFrom(log, i)
    decreases |log|
  {
    var init := log[..|log| - 1];
    if k < |log| - 1 {
      ActionsBetween(init, i, k);
    } else {
      assert ActionsFrom(init, k) == 0;
      SomeAction(init, i);
    }
  }

  lemma {:induction false} SomeAction(log: seq<Event>, i: nat)
    requires i < |log| && log[i].ActionExecuted?
    ensures ActionsFrom(log, i) > 0
  {
    if i < |log| - 1 {
      SomeAction(log[..|log| - 1], i);
    }
  }

  ghost predicate SameOpening(log: seq<Event>, readings: seq<int>, readings': seq<int>)
    requires |log| == |readings| == |readings'|
  {
    && Opening(log, readings) == Opening(log, readings')
    && var k := Opening(log, readings); (k.Some? && k.value < |log| ==> readings[k.value] == readings'[k.value])
  }

  /** Two readings of the clock give one safety state exactly if the same event opened its window at the same time. */
  lemma SafetyRestoredExactly(log: seq<Event>, readings: seq<int>, readings': seq<int>)
    requires |log| == |readings| == |readings'|
    ensures Replay(log, readings).safety == Replay(log, readings').safety <==> SameOpening(log, readings, readings')
  {
    ReplayedSafety(log, readings);
    ReplayedSafety(log, readings');
    var (i, k) := (Opening(log, readings), Opening(log, readings'));
    if i.Some? && k.Some? && i.value < k.value {
      ActionsBetween(log, i.value, k.value);
    } else if i.Some? && k.Some? && k.value < i.value {
      ActionsBetween(log, k.value, i.value);
    }
  }

  lemma {:induction false} ModeRestored(log: seq<Event>, readings: seq<int>, readings': seq<int>)
    requires |log| == |readings| == |readings'|
    ensures Replay(log, readings).mode == Replay(log, readings').mode
  {
    if log != [] {
      ModeRestored(log[..|log| - 1], readings[..|log| - 1], readings'[..|log| - 1]);
    }
  }

  /**
   In every reachable state, a new activation gives back the state that was lost exactly if the readings it happens
   on open the minute window at the same event and time.
   */
  lemma ReactivationRestoresExactly(clock: int, actions: seq<Action>, readings: seq<int>)
    requires clock > 0 && TimelyRun(NewWorld(clock), actions)
    requires |readings| == |Run(NewWorld(clock), actions).log|
    ensures var w := Run(NewWorld(clock), actions);
      && |w.times| == |w.log|
      && (Step(w, Reactivate(readings)).state == w.state <==> SameOpening(w.log, w.times, readings))
  {
    RunKeepsInv(NewWorld(clock), actions);
    var w := Run(NewWorld(clock), actions);
    SafetyRestoredExactly(w.log, w.times, readings);
    ModeRestored(w.log, w.times, readings);
    ReplayRemembers(w.log, readings);
  }

  // ---- Replaying at one instant ----

  /** How many actions the log holds since the settings were last replaced. */
  function ActionsSince(log: seq<Event>): nat {
    if log == [] then 0
    else
      var (init, last) := (log[..|log| - 1], log[|log| - 1]);
      match last
      case SafetyChanged(_) => 0
      case ActionExecuted => ActionsSince(init) + 1
      case _ => ActionsSince(init)
  }

  ghost predicate AllAt(readings: seq<int>, t: int) {
    forall i :: 0 <= i < |readings| ==> readings[i] == t
  }

  /** Actions since the settings were replaced all count as of the minute that begins at `t`. */
  ghost predicate Recounts(log: seq<Event>, t: int) {
    ActionsSince(log) > 0 && t - Start(Unopened(log)) >= 60
  }

  lemma {:induction false} UnopenedCounts(log: seq<Event>)
    ensures ActionsSince(log) > 0 ==> Unopened(log).Some?
  {
    if log != [] {
      UnopenedCounts(log[..|log| - 1]);
    }
  }

  ghost predicate SafetyAt(safety: Option<Safety>, log: seq<Event>, t: int) {
    if Recounts(log, t)
    then Unopened(log).Some? && safety == Some(Safety(Unopened(log).value.killSwitch, ActionsSince(log), t))
    else safety == Unopened(log)
  }

  lemma {:induction false} ReplayedAtOnce(log: seq<Event>, readings: seq<int>, t: int)
    requires |log| == |readings| && AllAt(readings, t)
    ensures SafetyAt(Replay(log, readings).safety, log, t)
  {
    if log != [] {
      var init := log[..|log| - 1];
      assert AllAt(readings[..|log| - 1], t);
      ReplayedAtOnce(init, readings[..|log| - 1], t);
      UnopenedCounts(init);
    }
  }

  /**
   After a new activation that applies the log at `t`, the limit of three actions a minute blocks reasoning exactly
   if there are three actions in the whole log since the settings were replaced, for the minute from `t` on; when the
   settings put the start of the window later than a minute before `t`, their own count goes on.
   */
  lemma LimitedAfterReplayExactly(log: seq<Event>, readings: seq<int>, t: int, now: int)
    requires |log| == |readings| && AllAt(readings, t)
    ensures var safety := Replay(log, readings).safety;
      RateLimited(safety, now) <==>
        if Recounts(log, t) then now < t + 60 && ActionsSince(log) >= MAX_ACTIONS_PER_MINUTE
        else RateLimited(Unopened(log), now)
  {
    ReplayedAtOnce(log, readings, t);
  }

  lemma {:induction false} WithoutSettings(log: seq<Event>)
    requires forall i :: 0 <= i < |log| ==> !log[i].SafetyChanged?
    ensures ActionsSince(log) == ActionsFrom(log, 0) && Start(Unopened(log)) == 0
  {
    if log != [] {
      WithoutSettings(log[..|log| - 1]);
    }
  }

  /** Three actions ever logged, however long ago, block all reasoning in the minute after the activation. */
  lemma OldActionsBlock(log: seq<Event>, readings: seq<int>, t: int, now: int)
    requires |log| == |readings| && AllAt(readings, t) && 60 <= t <= now < t + 60
    requires forall i :: 0 <= i < |log| ==> !log[i].SafetyChanged?
    ensures RateLimited(Replay(log, readings).safety, now) <==> ActionsFrom(log, 0) >= MAX_ACTIONS_PER_MINUTE
    ensures ActionsFrom(log, 0) >= MAX_ACTIONS_PER_MINUTE ==> !CanReason(Replay(log, readings), now)
  {
    LimitedAfterReplayExactly(log, readings, t, now);
    WithoutSettings(log);
    if ActionsFrom(log, 0) == 0 {
      NoActionsNoCount(log);
    }
  }

  lemma {:induction false} NoActionsNoCount(log: seq<Event>)
    requires forall i :: 0 <= i < |log| ==> !log[i].SafetyChanged?
    requires ActionsFrom(log, 0) == 0
    ensures Unopened(log).Some? ==> Unopened(log).value.actionsThisMinute == 0
  {
    if log != [] {
      NoActionsNoCount(log[..|log| - 1]);
    }
  }

  /** The action counter, unlike the debounce, depends on when the log is applied again. */
  lemma ActionCountDependsOnReplay()
    ensures var log := [ActionExecuted, ActionExecuted];
      Replay(log, [100, 200]).safety == Some(Safety(false, 1, 200)) && Replay(log, [100, 100]).safety == Some(Safety(false, 2, 100))
  {
    var log := [ActionExecuted, ActionExecuted];
    assert log[..1] == [ActionExecuted] && [100, 200][..1] == [100] && [100, 100][..1] == [100];
    assert [ActionExecuted][..0] == [] && [100][..0] == [];
    assert Replay([ActionExecuted], [100]).safety == Some(Safety(false, 1, 100));
  }

  // ---- The actor ----

  class HouseholdEntity {
    var mode: string
    var safety: Option<Safety>
    var lastReasoningTs: int
    var reasoningCount: nat
    var log: seq<Event>
    ghost var times: seq<int>

    function Model(): State
      reads this
    {
      State(mode, safety, lastReasoningTs, reasoningCount)
    }

    constructor ()
      ensures Model() == NEW_STATE && log == [] && times == []
    {
      mode, safety, lastReasoningTs, reasoningCount, log, times := "", None, 0, 0, [], [];
    }

    method MayReason(now: int) returns (allowed: bool)
      ensures allowed == CanReason(Model(), now)
      ensures safety.Some? && safety.value.killSwitch ==> !allowed
      ensures InMode(Model(), "frozen") || InMode(Model(), "sleeping") ==> !allowed
    {
      LowerIsCaseless(mode, "frozen");
      LowerIsCaseless(mode, "sleeping");
      assert Lower("frozen") == "frozen" && Lower("sleeping") == "sleeping";
      if safety.Some? && safety.value.killSwitch {
        return false;
      }
      if Lower(mode) == "frozen" {
        return false;
      }
      if Lower(mode) == "sleeping" {
        return false;
      }
      if safety.Some? {
        var elapsed := now - safety.value.minuteWindowStart;
        if elapsed < 60 && safety.value.actionsThisMinute >= MAX_ACTIONS_PER_MINUTE {
          return false;
        }
      }
      return !(lastReasoningTs > 0 && now - lastReasoningTs < REASONING_DEBOUNCE_SECONDS);
    }

    method Transition(e: Event, now: int)
      modifies `mode, `safety, `lastReasoningTs, `reasoningCount
      ensures Model() == Apply(old(Model()), e, now)
    {
      match e
      case Initialized =>
        mode := "active";
        if safety.None? {
          safety := Some(NEW_SAFETY);
        }
      case Reasoned(timestamp) =>
        lastReasoningTs := timestamp;
        reasoningCount := reasoningCount + 1;
      case ActionExecuted =>
        var s := if safety.None? then NEW_SAFETY else safety.value;
        if now - s.minuteWindowStart >= 60 {
          s := s.(actionsThisMinute := 1, minuteWindowStart := now);
        } else {
          s := s.(actionsThisMinute := s.actionsThisMinute + 1);
        }
        safety := Some(s);
      case SafetyChanged(newSafety) => safety := newSafety;
      case Observed =>
    }

    method Persist(e: Event, now: int)
      modifies this
      ensures Model() == Apply(old(Model()), e, now) && log == old(log) + [e] && times == old(times) + [now]
    {
      log, times := log + [e], times + [now];
      Transition(e, now);
    }

    /** `start` and `end` are the clock's readings before and after the model is asked. */
    method RunReasoningAsync(start: int, end: int, answers: bool, ghost clock: int)
      requires clock <= start <= end
      modifies this
      ensures World(Model(), log, times, end) == Step(World(old(Model()), old(log), old(times), clock), Reason(start, end, answers))
    {
      var allowed := MayReason(start);
      if allowed && answers {
        Persist(Reasoned(end), end);
      }
    }

    /** A new activation applies the log again. */
    method Reactivate(readings: seq<int>, ghost clock: int)
      requires |readings| == |log|
      modifies this
      ensures World(Model(), log, times, clock) == Step(World(old(Model()), old(log), old(times), clock), Action.Reactivate(readings))
    {
      mode, safety, lastReasoningTs, reasoningCount, times := "", None, 0, 0, readings;
      for i := 0 to |log|
        invariant log == old(log) && times == readings && Model() == Replay(log[..i], readings[..i])
      {
        assert log[..i + 1][..i] == log[..i] && readings[..i + 1][..i] == readings[..i];
        Transition(log[i], readings[i]);
      }
      assert log[..|log|] == log && readings[..|log|] == readings;
    }
  }
}
