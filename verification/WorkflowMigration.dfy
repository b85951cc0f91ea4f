/** The roles that the steps of a workflow name, before and after they are normalized. */
module WorkflowMigration {
  import opened Text
  import opened Yaml
  import opened StepMigration
  import opened RoleMigration

  // ---- The roles that the raw steps name ----

  function OwnRef(step: Node, name: string): set<string> {
    var value := Get(step, name);
    if value.Some? && value.value.Str? && Strip(value.value.s) != "" then {Strip(value.value.s)} else {}
  }

  /** `collect_role_ids_from_step` */
  function Collected(step: Node): set<string>
    decreases step, 1
  {
    if !step.Map? then {}
    else
      OwnRef(step, "agent") + OwnRef(step, "target_role") + OwnRef(step, "role")
      + CollectedUnder(step, "children") + CollectedUnder(step, "steps")
      + CollectedUnder(step, "if_true") + CollectedUnder(step, "if_false")
      + CollectedFromOne(step, "step") + CollectedFromOne(step, "generator")
  }

  function CollectedUnder(step: Node, name: string): set<string>
    decreases step, 0
  {
    var value := Get(step, name);
    if value.Some? && value.value.List? then CollectedFromList(value.value.items) else {}
  }

  function CollectedFromOne(step: Node, name: string): set<string>
    decreases step, 0
  {
    var value := Get(step, name);
    if value.Some? && value.value.Map? then Collected(value.value) else {}
  }

  function CollectedFromList(items: seq<Node>): set<string>
    decreases items, 2
  {
    if items == [] then {} else Collected(items[0]) + CollectedFromList(items[1..])
  }

  method CollectFromStep(step: Node, out: set<string>) returns (r: set<string>)
    ensures r == out + Collected(step)
    decreases step, 1
  {
    r := out;
    if step.Map? {
      r := r + OwnRef(step, "agent") + OwnRef(step, "target_role") + OwnRef(step, "role");
      r := CollectFromUnder(step, "children", r);
      r := CollectFromUnder(step, "steps", r);
      r := CollectFromUnder(step, "if_true", r);
      r := CollectFromUnder(step, "if_false", r);
      var one := Get(step, "step");
      if one.Some? && one.value.Map? {
        r := CollectFromStep(one.value, r);
      }
      one := Get(step, "generator");
      if one.Some? && one.value.Map? {
        r := CollectFromStep(one.value, r);
      }
    }
  }

  method CollectFromUnder(step: Node, name: string, out: set<string>) returns (r: set<string>)
    ensures r == out + CollectedUnder(step, name)
    decreases step, 0
  {
    r := out;
    var value := Get(step, name);
    if value.Some? && value.value.List? {
      r := CollectFromList(value.value.items, r);
    }
  }

  method CollectFromList(items: seq<Node>, out: set<string>) returns (r: set<string>)
    ensures r == out + CollectedFromList(items)
    decreases items, 2
  {
    r := out;
    for i := 0 to |items|
      invariant r + CollectedFromList(items[i..]) == out + CollectedFromList(items)
    {
      assert items[i..][1..] == items[i + 1..];
      r := CollectFromStep(items[i], r);
    }
    assert items[|items|..] == [];
  }

  ghost predicate CleanNames(names: set<string>) {
    forall n :: n in names ==> n != "" && Stripped(n)
  }

  lemma OwnRefIsClean(step: Node, name: string)
    ensures CleanNames(OwnRef(step, name))
  {
    var value := Get(step, name);
    if value.Some? && value.value.Str? {
      StripIsStripped(value.value.s);
    }
  }

  lemma {:induction false} CollectedIsClean(step: Node)
    ensures CleanNames(Collected(step))
    decreases step, 1
  {
    if step.Map? {
      OwnRefIsClean(step, "agent");
      OwnRefIsClean(step, "target_role");
      OwnRefIsClean(step, "role");
      CollectedUnderIsClean(step, "children");
      CollectedUnderIsClean(step, "steps");
      CollectedUnderIsClean(step, "if_true");
      CollectedUnderIsClean(step, "if_false");
      CollectedFromOneIsClean(step, "step");
      CollectedFromOneIsClean(step, "generator");
    }
  }

  lemma {:induction false} CollectedUnderIsClean(step: Node, name: string)
    ensures CleanNames(CollectedUnder(step, name))
    decreases step, 0
  {
    var value := Get(step, name);
    if value.Some? && value.value.List? {
      CollectedListIsClean(value.value.items);
    }
  }

  lemma {:induction false} CollectedFromOneIsClean(step: Node, name: string)
    ensures CleanNames(CollectedFromOne(step, name))
    decreases step, 0
  {
    var value := Get(step, name);
    if value.Some? && value.value.Map? {
      CollectedIsClean(value.value);
    }
  }

  lemma {:induction false} CollectedListIsClean(items: seq<Node>)
    ensures CleanNames(CollectedFromList(items))
    decreases items, 2
  {
    if items != [] {
      CollectedIsClean(items[0]);
      CollectedListIsClean(items[1..]);
    }
  }

  // ---- The roles that the normalized steps target ----

  /** The target roles of these steps, where they have one. */
  ghost function RolesIn(steps: seq<Step>): set<string> {
    set i | 0 <= i < |steps| && steps[i].role != "" :: steps[i].role
  }

  lemma RolesInAppend(a: seq<Step>, b: seq<Step>)
    ensures RolesIn(a + b) == RolesIn(a) + RolesIn(b)
  {
    var c := a + b;
    forall role | role in RolesIn(a) + RolesIn(b)
      ensures role in RolesIn(c)
    {
      if role in RolesIn(a) {
        var i :| 0 <= i < |a| && a[i].role != "" && a[i].role == role;
        assert c[i] == a[i];
      } else {
        var i :| 0 <= i < |b| && b[i].role != "" && b[i].role == role;
        assert c[|a| + i] == b[i];
      }
    }
  }

  lemma {:induction false} CollectedAppend(a: seq<Node>, b: seq<Node>)
    ensures CollectedFromList(a + b) == CollectedFromList(a) + CollectedFromList(b)
  {
    if a == [] {
      assert a + b == b;
    } else {
      assert (a + b)[1..] == a[1..] + b;
      CollectedAppend(a[1..], b);
    }
  }

  ghost function RoleSet(role: string): set<string> {
    if role == "" then {} else {role}
  }

  lemma CollectedEmittedRefs(s: Step)
    requires Stripped(s.role)
    ensures OwnRef(Emit(s), "target_role") == RoleSet(s.role)
    ensures OwnRef(Emit(s), "agent") == {} && OwnRef(Emit(s), "role") == {}
  {
    EmittedTexts(s);
    StepNamesAreDistinct();
    EmittedNothingElse(s, "agent");
    EmittedNothingElse(s, "role");
    StripIsStripped(s.role);
  }

  lemma OtherNamesAreAbsent()
    ensures "if_true" !in STEP_NAMES && "if_false" !in STEP_NAMES && "generator" !in STEP_NAMES
  {
    assert "if_true"[1] == 'f' && "if_false"[1] == 'f' && "id"[1] == 'd' && "generator"[0] == 'g';
    assert forall n :: n in STEP_NAMES ==> |n| >= 2 && n[0] != 'g' && n[1] != 'f';
  }

  lemma CollectedEmittedBelow(s: Step)
    ensures CollectedUnder(Emit(s), "children") == CollectedFromList(s.children)
    ensures CollectedUnder(Emit(s), "steps") == {} && CollectedFromOne(Emit(s), "step") == {}
    ensures CollectedUnder(Emit(s), "if_true") == {} && CollectedUnder(Emit(s), "if_false") == {}
    ensures CollectedFromOne(Emit(s), "generator") == {}
  {
    EmittedLists(s);
    StepNamesAreDistinct();
    OtherNamesAreAbsent();
    EmittedNothingElse(s, "steps");
    EmittedNothingElse(s, "step");
    EmittedNothingElse(s, "if_true");
    EmittedNothingElse(s, "if_false");
    EmittedNothingElse(s, "generator");
  }

  lemma CollectedEmitted(s: Step)
    requires Stripped(s.role)
    ensures Collected(Emit(s)) == RoleSet(s.role) + CollectedFromList(s.children)
  {
    CollectedEmittedRefs(s);
    CollectedEmittedBelow(s);
  }

  lemma RolesOfSingle(s: Step)
    ensures RolesIn([s]) == RoleSet(s.role)
  {
    assert [s][0] == s;
  }

  lemma RolesOfOne(step: Node, below: seq<Step>)
    requires step.Map?
    ensures RolesIn([Declared(step)] + below) == RoleSet(TargetRole(step)) + RolesIn(below)
  {
    RolesOfSingle(Declared(step));
    RolesInAppend([Declared(step)], below);
  }

  /** A second pass would collect exactly the roles that the steps of the first pass's input target. */
  lemma {:induction false} CollectedAgain(step: Node, fallbackId: string)
    requires step.Map?
    ensures Collected(NormalizeStep(step, fallbackId)) == RolesIn(Preorder(step))
    decreases step, 2
  {
    TargetIsStripped(step);
    CollectedEmitted(ReadStep(step, fallbackId));
    CollectedBelowAgain(step, StepId(step, fallbackId));
    RolesOfOne(step, PreorderBelow(step));
  }

  lemma {:induction false} CollectedBelowAgain(step: Node, id: string)
    requires step.Map?
    ensures CollectedFromList(NormalizeChildren(step, id)) == RolesIn(PreorderBelow(step))
    decreases step, 1
  {
    var a := NormalizeList(ListAt(step, "children"), id + "_children_", 1);
    var b := NormalizeList(ListAt(step, "steps"), id + "_steps_", 1);
    var c := NormalizedOne(step, id);
    CollectedPartAgain(step, "children", id + "_children_");
    CollectedPartAgain(step, "steps", id + "_steps_");
    CollectedOneAgain(step, id);
    CollectedAppend(a + b, c);
    CollectedAppend(a, b);
    var (rawA, rawB) := (PreorderOfList(ListAt(step, "children")), PreorderOfList(ListAt(step, "steps")));
    RolesInAppend(rawA + rawB, PreorderOfList(OneAt(step)));
    RolesInAppend(rawA, rawB);
    PartsBelow(step, id);
  }

  lemma {:induction false} CollectedPartAgain(step: Node, name: string, prefix: string)
    requires step.Map?
    ensures CollectedFromList(NormalizeList(ListAt(step, name), prefix, 1)) == RolesIn(PreorderOfList(ListAt(step, name)))
    decreases step, 0
  {
    var value := Get(step, name);
    if value.Some? && value.value.List? {
      CollectedListAgain(value.value.items, prefix, 1);
    }
  }

  lemma CollectedFromSingle(node: Node)
    ensures CollectedFromList([node]) == Collected(node)
  {
    assert [node][1..] == [];
  }

  lemma {:induction false} CollectedOneAgain(step: Node, id: string)
    requires step.Map?
    ensures CollectedFromList(NormalizedOne(step, id)) == RolesIn(PreorderOfList(OneAt(step)))
    decreases step, 0
  {
    var one := Get(step, "step");
    if one.Some? && one.value.Map? {
      CollectedAgain(one.value, id + "_step");
      PreorderOfOne(one.value);
      CollectedFromSingle(NormalizeStep(one.value, id + "_step"));
      assert OneAt(step) == [one.value];
    }
  }

  lemma {:induction false} CollectedListAgain(items: seq<Node>, prefix: string, index: nat)
    ensures CollectedFromList(NormalizeList(items, prefix, index)) == RolesIn(PreorderOfList(items))
    decreases items, 3
  {
    if items != [] {
      CollectedListAgain(items[1..], prefix, index + 1);
      var rest := NormalizeList(items[1..], prefix, index + 1);
      if items[0].Map? {
        var first := NormalizeStep(items[0], prefix + Decimal(index));
        CollectedAgain(items[0], prefix + Decimal(index));
        assert ([first] + rest)[1..] == rest;
        RolesInAppend(Preorder(items[0]), PreorderOfList(items[1..]));
      } else {
        assert [] + rest == rest && [] + PreorderOfList(items[1..]) == PreorderOfList(items[1..]);
      }
    }
  }

  // ---- References that are texts ----

  predicate TextOrAbsent(step: Node, name: string) {
    var value := GetOr(step, name, Null);
    value.Null? || value.Str?
  }

  /** Every role reference of this step, and of every step below it, is a text or absent. */
  predicate TextRefs(step: Node)
    decreases step, 1
  {
    && TextOrAbsent(step, "target_role") && TextOrAbsent(step, "role") && TextOrAbsent(step, "agent")
    && TextRefsUnder(step, "children") && TextRefsUnder(step, "steps")
    && var one := Get(step, "step"); (one.Some? && one.value.Map? ==> TextRefs(one.value))
  }

  predicate TextRefsUnder(step: Node, name: string)
    decreases step, 0
  {
    var value := Get(step, name);
    value.Some? && value.value.List? ==> AllTextRefs(value.value.items)
  }

  predicate AllTextRefs(items: seq<Node>)
    decreases items, 2
  {
    items == [] || ((items[0].Map? ==> TextRefs(items[0])) && AllTextRefs(items[1..]))
  }

  lemma TextRefIsCollected(step: Node, name: string)
    requires TextOrAbsent(step, name)
    ensures RoleSet(TextAt(step, name)) == OwnRef(step, name)
  {
    StripIsStripped("");
  }

  lemma {:induction false} TextRefsAreCollected(step: Node)
    requires step.Map? && TextRefs(step)
    ensures RolesIn(Preorder(step)) <= Collected(step)
    decreases step, 2
  {
    TextRefIsCollected(step, "target_role");
    TextRefIsCollected(step, "role");
    TextRefIsCollected(step, "agent");
    assert RoleSet(TargetRole(step)) <= Collected(step);
    TextRefsBelowAreCollected(step);
    RolesOfOne(step, PreorderBelow(step));
  }

  lemma {:induction false} TextRefsBelowAreCollected(step: Node)
    requires step.Map? && TextRefs(step)
    ensures RolesIn(PreorderBelow(step)) <= Collected(step)
    decreases step, 1
  {
    var (a, b, c) := (PreorderOfList(ListAt(step, "children")), PreorderOfList(ListAt(step, "steps")), PreorderOfList(OneAt(step)));
    TextRefsPartIsCollected(step, "children");
    TextRefsPartIsCollected(step, "steps");
    var one := Get(step, "step");
    if one.Some? && one.value.Map? {
      TextRefsAreCollected(one.value);
      PreorderOfOne(one.value);
    }
    assert RolesIn(c) <= CollectedFromOne(step, "step");
    RolesInAppend(a + b, c);
    RolesInAppend(a, b);
    PartsBelow(step, "x");
  }

  lemma {:induction false} TextRefsPartIsCollected(step: Node, name: string)
    requires TextRefsUnder(step, name)
    ensures RolesIn(PreorderOfList(ListAt(step, name))) <= CollectedUnder(step, name)
    decreases step, 0
  {
    var value := Get(step, name);
    if value.Some? && value.value.List? {
      TextRefsListIsCollected(value.value.items);
    }
  }

  lemma {:induction false} TextRefsListIsCollected(items: seq<Node>)
    requires AllTextRefs(items)
    ensures RolesIn(PreorderOfList(items)) <= CollectedFromList(items)
    decreases items, 3
  {
    if items != [] {
      TextRefsListIsCollected(items[1..]);
      var first := if items[0].Map? then Preorder(items[0]) else [];
      if items[0].Map? {
        TextRefsAreCollected(items[0]);
      }
      assert RolesIn(first) <= Collected(items[0]);
      RolesInAppend(first, PreorderOfList(items[1..]));
      assert PreorderOfList(items) == first + PreorderOfList(items[1..]);
    }
  }
}
