/** The actor registry: a list of groups that stands for a set of (type, actor) pairs. */
module Registry {
  import opened Text

  datatype Group = Group(kind: string, actors: seq<string>)

  datatype Pair = Pair(kind: string, actor: string)

  // ---- Transitions ----

  /** The position of the first group of this type. */
  function GroupOf(groups: seq<Group>, kind: string): (r: Option<nat>)
    ensures r.Some? ==> r.value < |groups| && groups[r.value].kind == kind
    ensures r.None? ==> forall j :: 0 <= j < |groups| ==> groups[j].kind != kind
  {
    if groups == [] then None
    else if groups[0].kind == kind then Some(0)
    else
      var rest := GroupOf(groups[1..], kind);
      if rest.None? then None else Some(rest.value + 1)
  }

  predicate IsRegistered(groups: seq<Group>, p: Pair) {
    var at := GroupOf(groups, p.kind);
    at.Some? && p.actor in groups[at.value].actors
  }

  /** `ApplyRegistered` */
  function ApplyRegistered(groups: seq<Group>, p: Pair): seq<Group> {
    var at := GroupOf(groups, p.kind);
    if at.None? then groups + [Group(p.kind, [p.actor])]
    else if p.actor in groups[at.value].actors then groups
    else groups[at.value := groups[at.value].(actors := groups[at.value].actors + [p.actor])]
  }

  /** The list without the first occurrence. */
  function WithoutFirst(actors: seq<string>, actor: string): seq<string> {
    if actors == [] then []
    else if actors[0] == actor then actors[1..]
    else [actors[0]] + WithoutFirst(actors[1..], actor)
  }

  /** `ApplyUnregistered` */
  function ApplyUnregistered(groups: seq<Group>, p: Pair): seq<Group> {
    var at := GroupOf(groups, p.kind);
    if at.None? then groups
    else
      var rest := WithoutFirst(groups[at.value].actors, p.actor);
      if rest == [] then groups[..at.value] + groups[at.value + 1..]
      else groups[at.value := groups[at.value].(actors := rest)]
  }

  predicate IsNamed(p: Pair) {
    !IsBlank(p.kind) && !IsBlank(p.actor)
  }

  datatype Command = Register(pair: Pair) | Unregister(pair: Pair)

  /** A command is stored as an event when it names a pair and would change whether the pair is registered. */
  predicate IsStored(groups: seq<Group>, c: Command) {
    IsNamed(c.pair) && (c.Register? <==> !IsRegistered(groups, c.pair))
  }

  function Step(groups: seq<Group>, c: Command): seq<Group> {
    if !IsStored(groups, c) then groups
    else if c.Register? then ApplyRegistered(groups, c.pair)
    else ApplyUnregistered(groups, c.pair)
  }

  function Run(groups: seq<Group>, commands: seq<Command>): seq<Group>
    decreases |commands|
  {
    if commands == [] then groups
    else Step(Run(groups, commands[..|commands| - 1]), commands[|commands| - 1])
  }

  /** Admission asks for a scope, too, but does not compare it. */
  predicate IsAdmitted(groups: seq<Group>, scope: string, p: Pair) {
    !IsBlank(scope) && IsNamed(p) && IsRegistered(groups, p)
  }

  // ---- The list refines a set ----

  ghost predicate NoRepeats(actors: seq<string>) {
    forall i, j :: 0 <= i < j < |actors| ==> actors[i] != actors[j]
  }

  ghost predicate Inv(groups: seq<Group>) {
    && (forall i, j :: 0 <= i < j < |groups| ==> groups[i].kind != groups[j].kind)
    && forall i :: 0 <= i < |groups| ==> groups[i].actors != [] && NoRepeats(groups[i].actors)
  }

  ghost predicate Contains(groups: seq<Group>, p: Pair) {
    exists i :: 0 <= i < |groups| && groups[i].kind == p.kind && p.actor in groups[i].actors
  }

  /** With distinct types, looking in the first group of the type is looking everywhere. */
  lemma RegisteredIsContained(groups: seq<Group>, p: Pair)
    requires Inv(groups)
    ensures IsRegistered(groups, p) <==> Contains(groups, p)
  {
  }

  lemma RegisterIs(groups: seq<Group>, p: Pair)
    requires Inv(groups) && !IsRegistered(groups, p)
    ensures var r := ApplyRegistered(groups, p);
      Inv(r) && forall q :: Contains(r, q) <==> Contains(groups, q) || q == p
  {
    var r := ApplyRegistered(groups, p);
    var at := GroupOf(groups, p.kind);
    var k := if at.None? then |groups| else at.value;
    assert r[k].kind == p.kind && p.actor in r[k].actors;
    assert forall i :: 0 <= i < |groups| && i != k ==> r[i] == groups[i];
    if at.Some? {
      assert r[k].actors == groups[k].actors + [p.actor];
    }
    forall q
      ensures Contains(r, q) <==> Contains(groups, q) || q == p
    {
      if Contains(groups, q) {
        var i :| 0 <= i < |groups| && groups[i].kind == q.kind && q.actor in groups[i].actors;
        assert r[i].kind == q.kind && q.actor in r[i].actors;
      }
    }
  }

  lemma {:induction false} WithoutFirstIs(actors: seq<string>, actor: string)
    requires NoRepeats(actors)
    ensures var r := WithoutFirst(actors, actor);
      NoRepeats(r) && forall a :: a in r <==> a in actors && a != actor
  {
    if actors != [] {
      assert actors == [actors[0]] + actors[1..];
      assert actors[0] !in actors[1..];
      if actors[0] != actor {
        WithoutFirstIs(actors[1..], actor);
      }
    }
  }

  lemma UnregisterIs(groups: seq<Group>, p: Pair)
    requires Inv(groups) && IsRegistered(groups, p)
    ensures var r := ApplyUnregistered(groups, p);
      Inv(r) && forall q :: Contains(r, q) <==> Contains(groups, q) && q != p
  {
    var r := ApplyUnregistered(groups, p);
    var k := GroupOf(groups, p.kind).value;
    var rest := WithoutFirst(groups[k].actors, p.actor);
    WithoutFirstIs(groups[k].actors, p.actor);
    var gone := if rest == [] then 1 else 0;
    assert |r| == |groups| - gone;
    assert forall i :: 0 <= i < |r| && (i < k || rest == []) ==> r[i] == groups[if i < k then i else i + 1];
    forall q
      ensures Contains(r, q) <==> Contains(groups, q) && q != p
    {
      if Contains(groups, q) && q != p {
        var i :| 0 <= i < |groups| && groups[i].kind == q.kind && q.actor in groups[i].actors;
        if i == k {
          assert q.actor in rest && r[k].actors == rest;
        } else {
          var j := if i < k then i else i - gone;
          assert r[j] == groups[i];
        }
      }
      if Contains(r, q) {
        var j :| 0 <= j < |r| && r[j].kind == q.kind && q.actor in r[j].actors;
        if rest == [] {
          assert r[j] == groups[if j < k then j else j + 1];
        }
      }
    }
  }

  /** One command changes at most whether its own pair is registered. */
  lemma StepIs(groups: seq<Group>, c: Command)
    requires Inv(groups)
    ensures Inv(Step(groups, c))
    ensures forall q ::
      Contains(Step(groups, c), q)
      <==> if q == c.pair && !IsBlank(q.kind) && !IsBlank(q.actor) then c.Register? else Contains(groups, q)
  {
    RegisteredIsContained(groups, c.pair);
    if IsStored(groups, c) {
      if c.Register? {
        RegisterIs(groups, c.pair);
      } else {
        UnregisterIs(groups, c.pair);
      }
    }
  }

  /** The last command about this pair, if there is one, registers it. */
  predicate LastRegisters(commands: seq<Command>, p: Pair)
    decreases |commands|
  {
    commands != [] &&
    var last := commands[|commands| - 1];
    if last.pair == p then last.Register? else LastRegisters(commands[..|commands| - 1], p)
  }

  /** Over every run the groups have distinct types, none is empty, none repeats an actor, and they hold one set. */
  lemma {:induction false} RunIs(commands: seq<Command>)
    ensures Inv(Run([], commands))
    ensures forall p :: Contains(Run([], commands), p) <==> !IsBlank(p.kind) && !IsBlank(p.actor) && LastRegisters(commands, p)
    decreases |commands|
  {
    if commands != [] {
      var init := commands[..|commands| - 1];
      RunIs(init);
      StepIs(Run([], init), commands[|commands| - 1]);
    }
  }

  /** A pair is admitted exactly when the last command about it was a registration. */
  lemma AdmissionIsExact(commands: seq<Command>, scope: string, p: Pair)
    ensures IsAdmitted(Run([], commands), scope, p)
       <==> !IsBlank(scope) && !IsBlank(p.kind) && !IsBlank(p.actor) && LastRegisters(commands, p)
  {
    RunIs(commands);
    RegisteredIsContained(Run([], commands), p);
  }

  /** An event is stored exactly when it changes the set that the groups hold. */
  lemma StoredExactly(groups: seq<Group>, c: Command)
    requires Inv(groups)
    ensures IsStored(groups, c) <==> Contains(Step(groups, c), c.pair) != Contains(groups, c.pair)
  {
    RegisteredIsContained(groups, c.pair);
    StepIs(groups, c);
  }

  // ---- The actor ----

  class GAgentRegistryGAgent {
    var groups: seq<Group>

    constructor ()
      ensures groups == []
    {
      groups := [];
    }

    method FindGroup(kind: string) returns (at: Option<nat>)
      ensures at == GroupOf(groups, kind)
    {
      for i := 0 to |groups|
        invariant GroupOf(groups, kind) ==
          var rest := GroupOf(groups[i..], kind); if rest.None? then None else Some(rest.value + i)
      {
        if groups[i].kind == kind {
          return Some(i);
        }
        assert groups[i..][1..] == groups[i + 1..];
      }
      return None;
    }

    method HandleActorRegistered(p: Pair) returns (stored: bool)
      modifies this
      ensures groups == Step(old(groups), Register(p)) && stored == IsStored(old(groups), Register(p))
    {
      if IsBlank(p.kind) || IsBlank(p.actor) {
        return false;
      }
      var at := FindGroup(p.kind);
      if at.Some? && p.actor in groups[at.value].actors {
        return false;
      }
      Transition(Register(p));
      return true;
    }

    method HandleActorUnregistered(p: Pair) returns (stored: bool)
      modifies this
      ensures groups == Step(old(groups), Unregister(p)) && stored == IsStored(old(groups), Unregister(p))
    {
      if IsBlank(p.kind) || IsBlank(p.actor) {
        return false;
      }
      var at := FindGroup(p.kind);
      if at.None? || p.actor !in groups[at.value].actors {
        return false;
      }
      Transition(Unregister(p));
      return true;
    }

    /** The edits of the state that the two events stand for. */
    method Transition(event: Command)
      modifies this
      ensures groups == if event.Register? then ApplyRegistered(old(groups), event.pair)
                        else ApplyUnregistered(old(groups), event.pair)
    {
      var p := event.pair;
      var at := FindGroup(p.kind);
      match event
      case Register(_) =>
        if at.None? {
          groups := groups + [Group(p.kind, [])];
          at := Some(|groups| - 1);
        }
        var group := groups[at.value];
        if p.actor !in group.actors {
          groups := groups[at.value := group.(actors := group.actors + [p.actor])];
        }
        assert [] + [p.actor] == [p.actor];
        if GroupOf(old(groups), p.kind).None? {
          assert groups == old(groups) + [Group(p.kind, [p.actor])];
        }
      case Unregister(_) =>
        if at.None? {
          return;
        }
        var group := groups[at.value].(actors := WithoutFirst(groups[at.value].actors, p.actor));
        groups := groups[at.value := group];
        if |group.actors| == 0 {
          groups := groups[..at.value] + groups[at.value + 1..];
        }
    }

    /** True where the source returns, false where it throws the not-found exception. */
    method HandleScopeResourceAdmissionRequested(scope: string, p: Pair) returns (admitted: bool)
      ensures admitted == IsAdmitted(groups, scope, p)
    {
      if IsBlank(scope) || IsBlank(p.kind) || IsBlank(p.actor) {
        return false;
      }
      var at := FindGroup(p.kind);
      return at.Some? && p.actor in groups[at.value].actors;
    }
  }
}
