/** Normalizing one legacy workflow step, with everything nested in it, to the current schema. */
module StepMigration {
  import opened Text
  import opened Yaml

  const STRUCTURAL_KEYS := {
    "id", "type", "target_role", "role", "agent", "parameters", "next", "children", "steps", "step",
    "branches", "retry", "on_error", "timeout_ms"
  }

  const DEFAULT_TYPE := "llm_call"

  datatype Retry = Retry(maxAttempts: Option<int>, backoff: string, delayMs: Option<int>)

  datatype OnError = OnError(strategy: string, fallbackStep: string, defaultOutput: string)

  /** A normalized step. Blank texts, empty lists and empty dicts stand for fields that are left out. */
  datatype Step = Step(
    id: string,
    kind: string,
    role: string,
    next: string,
    branches: seq<Field>,
    retry: Retry,
    onError: OnError,
    timeoutMs: Option<int>,
    children: seq<Node>,
    parameters: seq<Field>)

  // ---- Reading the parts of a raw step ----

  function AddBranch(out: seq<Field>, key: string, target: string): seq<Field> {
    if key == "" || target == "" then out else Put(out, key, Str(target))
  }

  function BranchTarget(value: Node): string {
    Strip(ToString(if value.Map? then ReadMappingValue(value, ["next", "to", "target", "step"]) else value))
  }

  function BranchesOfFields(fields: seq<Field>): seq<Field> {
    if fields == [] then []
    else
      var (init, last) := (fields[..|fields| - 1], fields[|fields| - 1]);
      AddBranch(BranchesOfFields(init), Strip(ToString(last.key)), BranchTarget(last.value))
  }

  function BranchesOfItems(items: seq<Node>): seq<Field> {
    if items == [] then []
    else
      var (init, last) := (items[..|items| - 1], items[|items| - 1]);
      if !last.Map? then BranchesOfItems(init)
      else AddBranch(
        BranchesOfItems(init),
        Strip(ToString(ReadMappingValue(last, ["condition", "when", "case", "label", "if"]))),
        Strip(ToString(ReadMappingValue(last, ["next", "to", "target", "step"]))))
  }

  function NormalizeBranches(raw: Node): seq<Field> {
    match raw
    case Map(fields) => BranchesOfFields(fields)
    case List(items) => BranchesOfItems(items)
    case _ => []
  }

  function NormalizeRetry(raw: Node): Retry {
    Retry(IntLike(GetOr(raw, "max_attempts", Null)), TextAt(raw, "backoff"), IntLike(GetOr(raw, "delay_ms", Null)))
  }

  function NormalizeOnError(raw: Node): OnError {
    OnError(TextAt(raw, "strategy"), TextAt(raw, "fallback_step"), TextAt(raw, "default_output"))
  }

  function AddParameter(out: seq<Field>, field: Field): seq<Field> {
    var key := Strip(ToString(field.key));
    if key == "" then out else Put(out, key, Str(ToString(field.value)))
  }

  function AddParameters(out: seq<Field>, fields: seq<Field>): seq<Field> {
    if fields == [] then out
    else AddParameter(AddParameters(out, fields[..|fields| - 1]), fields[|fields| - 1])
  }

  predicate IsStructural(key: Node) {
    key.Str? && key.s in STRUCTURAL_KEYS
  }

  /** Legacy keys of the step itself, which move below its parameters. */
  function LegacyFields(fields: seq<Field>): seq<Field> {
    if fields == [] then []
    else
      var (init, last) := (fields[..|fields| - 1], fields[|fields| - 1]);
      LegacyFields(init) + if IsStructural(last.key) || last.value.Null? then [] else [last]
  }

  function RawParameters(step: Node): seq<Field>
    requires step.Map?
  {
    var raw := GetOr(step, "parameters", Null);
    AddParameters([], (if raw.Map? then raw.fields else []) + LegacyFields(step.fields))
  }

  function StepId(step: Node, fallbackId: string): string {
    if TextAt(step, "id") != "" then TextAt(step, "id") else fallbackId
  }

  function StepType(step: Node): string {
    if TextAt(step, "type") != "" then TextAt(step, "type") else DEFAULT_TYPE
  }

  function FirstNonBlank(a: string, b: string, c: string): string {
    if a != "" then a else if b != "" then b else c
  }

  function TargetRole(step: Node): string {
    FirstNonBlank(TextAt(step, "target_role"), TextAt(step, "role"), TextAt(step, "agent"))
  }

  // ---- Writing a normalized step ----

  function NonBlank(s: string): Option<Node> {
    if s == "" then None else Some(Str(s))
  }

  function Number(n: Option<int>): Option<Node> {
    if n.None? then None else Some(Int(n.value))
  }

  function Dict(fields: seq<Field>): Option<Node> {
    if fields == [] then None else Some(Map(fields))
  }

  /** The fields that are present, in the order of the names. */
  function Present(names: seq<string>, values: seq<Option<Node>>): seq<Field>
    requires |names| == |values|
  {
    if names == [] then []
    else
      (if values[0].Some? then [Field(Str(names[0]), values[0].value)] else []) + Present(names[1..], values[1..])
  }

  const RETRY_NAMES := ["max_attempts", "backoff", "delay_ms"]
  const ON_ERROR_NAMES := ["strategy", "fallback_step", "default_output"]
  const STEP_NAMES := ["id", "type", "target_role", "next", "branches", "retry", "on_error", "timeout_ms", "children", "parameters"]

  function RetryValues(r: Retry): (values: seq<Option<Node>>)
    ensures |values| == 3
  {
    [Number(r.maxAttempts), NonBlank(r.backoff), Number(r.delayMs)]
  }

  function OnErrorValues(e: OnError): (values: seq<Option<Node>>)
    ensures |values| == 3
  {
    [NonBlank(e.strategy), NonBlank(e.fallbackStep), NonBlank(e.defaultOutput)]
  }

  function StepValues(s: Step): (values: seq<Option<Node>>)
    ensures |values| == 10
  {
    [ Some(Str(s.id)), Some(Str(s.kind)), NonBlank(s.role), NonBlank(s.next), Dict(s.branches), Dict(Present(RETRY_NAMES, RetryValues(s.retry))),
      Dict(Present(ON_ERROR_NAMES, OnErrorValues(s.onError))), Number(s.timeoutMs),
      if s.children == [] then None else Some(List(s.children)), Dict(s.parameters) ]
  }

  function Emit(s: Step): Node {
    Map(Present(STEP_NAMES, StepValues(s)))
  }

  // ---- Normalizing ----

  function ReadStep(step: Node, fallbackId: string): Step
    requires step.Map?
    decreases step, 1
  {
    var id := StepId(step, fallbackId);
    Step(
      id,
      StepType(step),
      TargetRole(step),
      TextAt(step, "next"),
      NormalizeBranches(GetOr(step, "branches", Null)),
      NormalizeRetry(GetOr(step, "retry", Null)),
      NormalizeOnError(GetOr(step, "on_error", Null)),
      IntLike(GetOr(step, "timeout_ms", Null)),
      NormalizeChildren(step, id),
      RawParameters(step))
  }

  function NormalizeStep(step: Node, fallbackId: string): Node
    requires step.Map?
    decreases step, 2
  {
    Emit(ReadStep(step, fallbackId))
  }

  function NormalizeChildren(step: Node, id: string): seq<Node>
    requires step.Map?
    decreases step, 0
  {
    var (children, steps, one) := (Get(step, "children"), Get(step, "steps"), Get(step, "step"));
    (if children.Some? && children.value.List? then NormalizeList(children.value.items, id + "_children_", 1) else [])
    + (if steps.Some? && steps.value.List? then NormalizeList(steps.value.items, id + "_steps_", 1) else [])
    + if one.Some? && one.value.Map? then [NormalizeStep(one.value, id + "_step")] else []
  }

  /** Every mapping of the list is normalized; anything else is skipped but counted in the fallback ids. */
  function NormalizeList(items: seq<Node>, prefix: string, index: nat): seq<Node>
    decreases items, 3
  {
    if items == [] then []
    else
      (if items[0].Map? then [NormalizeStep(items[0], prefix + Decimal(index))] else [])
      + NormalizeList(items[1..], prefix, index + 1)
  }

  // ---- Reading back what was written ----

  ghost predicate Distinct(names: seq<string>) {
    forall i, j :: 0 <= i < j < |names| ==> names[i] != names[j]
  }

  lemma {:induction false} GetAbsent(names: seq<string>, values: seq<Option<Node>>, name: string)
    requires |names| == |values| && name !in names
    ensures GetField(Present(names, values), name) == None
  {
    if names != [] {
      assert names[0] in names && forall n :: n in names[1..] ==> n in names;
      GetAbsent(names[1..], values[1..], name);
      PresentStep(names, values, name);
    }
  }

  lemma PresentStep(names: seq<string>, values: seq<Option<Node>>, name: string)
    requires |names| == |values| && names != []
    ensures GetField(Present(names, values), name)
         == if values[0].Some? && names[0] == name then values[0] else GetField(Present(names[1..], values[1..]), name)
  {
    var rest := Present(names[1..], values[1..]);
    if values[0].Some? {
      assert Present(names, values) == [Field(Str(names[0]), values[0].value)] + rest;
      assert Present(names, values)[1..] == rest;
    } else {
      assert Present(names, values) == rest;
    }
  }

  lemma {:induction false} GetPresent(names: seq<string>, values: seq<Option<Node>>, i: nat)
    requires |names| == |values| && Distinct(names) && i < |names|
    ensures GetField(Present(names, values), names[i]) == values[i]
  {
    PresentStep(names, values, names[i]);
    if i > 0 {
      GetPresent(names[1..], values[1..], i - 1);
    } else if values[0].None? {
      assert names[0] !in names[1..];
      GetAbsent(names[1..], values[1..], names[0]);
    }
  }

  lemma {:induction false} PresentKeys(names: seq<string>, values: seq<Option<Node>>, k: nat)
    requires |names| == |values| && k < |Present(names, values)|
    ensures Present(names, values)[k].key.Str? && Present(names, values)[k].key.s in names
  {
    var here := if values[0].Some? then 1 else 0;
    if k >= here {
      PresentKeys(names[1..], values[1..], k - here);
    }
  }

  lemma NamesAreDistinct()
    ensures Distinct(RETRY_NAMES) && Distinct(ON_ERROR_NAMES)
  {
  }

  lemma StepNamesAreDistinct()
    ensures Distinct(STEP_NAMES)
    ensures "role" !in STEP_NAMES && "agent" !in STEP_NAMES && "steps" !in STEP_NAMES && "step" !in STEP_NAMES
  {
    assert "next"[0] != "type"[0] && "branches"[0] != "on_error"[0] && "branches"[0] != "children"[0];
    assert "on_error"[0] != "children"[0] && "timeout_ms"[0] != "parameters"[0];
    assert "role"[0] != "type"[0] && "role"[0] != "next"[0] && "agent"[0] != "retry"[0];
    assert "steps"[0] != "retry"[0] && "step"[0] != "type"[0] && "step"[0] != "next"[0];
  }

  lemma StepNamesAreStructural()
    ensures forall n :: n in STEP_NAMES ==> n in STRUCTURAL_KEYS
  {
  }

  // ---- Dicts of texts ----

  /** Non-blank stripped keys, no key twice, text values. */
  ghost predicate CleanDict(fields: seq<Field>) {
    && (forall i :: 0 <= i < |fields| ==>
          fields[i].key.Str? && fields[i].key.s != "" && Stripped(fields[i].key.s) && fields[i].value.Str?)
    && UniqueKeys(fields)
  }

  /** A clean dict whose values are stripped and not blank either. */
  ghost predicate CleanBranches(fields: seq<Field>) {
    && CleanDict(fields)
    && forall i :: 0 <= i < |fields| ==> fields[i].value.s != "" && Stripped(fields[i].value.s)
  }

  ghost predicate UniqueKeys(fields: seq<Field>) {
    forall i, j :: 0 <= i < j < |fields| ==> fields[i].key != fields[j].key
  }

  lemma {:induction false} PutKeeps(fields: seq<Field>, key: string, value: Node)
    requires UniqueKeys(fields)
    ensures UniqueKeys(Put(fields, key, value))
    ensures forall f :: f in Put(fields, key, value) ==> f in fields || f == Field(Str(key), value)
  {
    if fields != [] && fields[0].key != Str(key) {
      PutKeeps(fields[1..], key, value);
      var rest := Put(fields[1..], key, value);
      forall j | 0 <= j < |rest|
        ensures rest[j].key != fields[0].key
      {
        assert rest[j] in rest;
        if rest[j] in fields[1..] {
          var k :| 0 <= k < |fields[1..]| && fields[1..][k] == rest[j];
          assert fields[k + 1] == rest[j];
        }
      }
    }
  }

  lemma {:induction false} PutNew(fields: seq<Field>, key: string, value: Node)
    requires forall i :: 0 <= i < |fields| ==> fields[i].key != Str(key)
    ensures Put(fields, key, value) == fields + [Field(Str(key), value)]
  {
    if fields != [] {
      PutNew(fields[1..], key, value);
      assert fields == [fields[0]] + fields[1..];
    }
  }

  lemma PutKeepsClean(fields: seq<Field>, key: string, value: string)
    requires CleanDict(fields) && key != "" && Stripped(key)
    ensures CleanDict(Put(fields, key, Str(value)))
    ensures CleanBranches(fields) && value != "" && Stripped(value) ==> CleanBranches(Put(fields, key, Str(value)))
  {
    PutKeeps(fields, key, Str(value));
    var r := Put(fields, key, Str(value));
    forall i | 0 <= i < |r|
      ensures r[i].key.Str? && r[i].key.s != "" && Stripped(r[i].key.s) && r[i].value.Str?
      ensures CleanBranches(fields) && value != "" && Stripped(value) ==> r[i].value.s != "" && Stripped(r[i].value.s)
    {
      assert r[i] in r;
    }
  }

  lemma {:induction false} GetPut(fields: seq<Field>, key: string, value: Node, name: string)
    ensures GetField(Put(fields, key, value), name) == if name == key then Some(value) else GetField(fields, name)
  {
    if fields != [] && fields[0].key != Str(key) {
      GetPut(fields[1..], key, value, name);
      assert Put(fields, key, value)[1..] == Put(fields[1..], key, value);
    } else if fields != [] {
      assert Put(fields, key, value)[1..] == fields[1..];
    }
  }

  // ---- The last assignment wins ----

  /** A text assigned to a name; a blank name assigns nothing. */
  datatype Assignment = Assignment(name: string, text: string)

  const NO_ASSIGNMENT := Assignment("", "")

  /** The dict that assignments leave. */
  function Assigned(list: seq<Assignment>): seq<Field> {
    if list == [] then []
    else
      var (init, last) := (list[..|list| - 1], list[|list| - 1]);
      if last.name == "" then Assigned(init) else Put(Assigned(init), last.name, Str(last.text))
  }

  ghost predicate Assigns(list: seq<Assignment>, name: string) {
    exists i :: 0 <= i < |list| && list[i].name == name
  }

  /** The last assignment to the name assigns this text. */
  ghost predicate LastAssigns(list: seq<Assignment>, name: string, text: string) {
    exists i :: 0 <= i < |list| && LastAt(list, name, text, i)
  }

  predicate LastAt(list: seq<Assignment>, name: string, text: string, i: nat)
    requires i < |list|
  {
    list[i] == Assignment(name, text) && forall j :: i < j < |list| ==> list[j].name != name
  }

  lemma LastAssignsMore(init: seq<Assignment>, last: Assignment, name: string, text: string)
    ensures LastAssigns(init + [last], name, text)
      <==> if last.name == name then last.text == text else LastAssigns(init, name, text)
    ensures Assigns(init + [last], name) <==> last.name == name || Assigns(init, name)
  {
    var list := init + [last];
    assert list[|init|] == last && forall i :: 0 <= i < |init| ==> list[i] == init[i];
    if last.name == name && last.text == text {
      assert LastAt(list, name, text, |init|);
    }
    if last.name != name && LastAssigns(init, name, text) {
      var i :| 0 <= i < |init| && LastAt(init, name, text, i);
      assert LastAt(list, name, text, i);
    }
    if LastAssigns(list, name, text) {
      var i :| 0 <= i < |list| && LastAt(list, name, text, i);
      assert i < |init| ==> LastAt(init, name, text, i);
    }
  }

  lemma {:induction false} AssignedExactly(list: seq<Assignment>, name: string, text: string)
    requires name != ""
    ensures GetField(Assigned(list), name) == Some(Str(text)) <==> LastAssigns(list, name, text)
    ensures GetField(Assigned(list), name) == None <==> !Assigns(list, name)
  {
    if list != [] {
      var (init, last) := (list[..|list| - 1], list[|list| - 1]);
      assert list == init + [last];
      AssignedExactly(init, name, text);
      LastAssignsMore(init, last, name, text);
      if last.name != "" {
        GetPut(Assigned(init), last.name, Str(last.text), name);
      }
    }
  }

  lemma {:induction false} LastAssignsConcat(a: seq<Assignment>, b: seq<Assignment>, name: string, text: string)
    ensures LastAssigns(a + b, name, text)
      <==> LastAssigns(b, name, text) || (!Assigns(b, name) && LastAssigns(a, name, text))
  {
    if b == [] {
      assert a + b == a;
    } else {
      var (init, last) := (b[..|b| - 1], b[|b| - 1]);
      assert b == init + [last] && a + b == (a + init) + [last];
      LastAssignsConcat(a, init, name, text);
      LastAssignsMore(a + init, last, name, text);
      LastAssignsMore(init, last, name, text);
    }
  }

  // ---- Parameters ----

  function RawAssignment(field: Field): Assignment {
    Assignment(Strip(ToString(field.key)), ToString(field.value))
  }

  function LegacyAssignment(field: Field): Assignment {
    if IsStructural(field.key) || field.value.Null? then NO_ASSIGNMENT else RawAssignment(field)
  }

  /** What each of them assigns, in order. */
  function Assignments<T>(xs: seq<T>, f: T -> Assignment): seq<Assignment> {
    if xs == [] then [] else Assignments(xs[..|xs| - 1], f) + [f(xs[|xs| - 1])]
  }

  lemma {:induction false} AssignmentsLength<T>(xs: seq<T>, f: T -> Assignment)
    ensures |Assignments(xs, f)| == |xs|
  {
    if xs != [] {
      AssignmentsLength(xs[..|xs| - 1], f);
    }
  }

  lemma {:induction false} AssignmentsAt<T>(xs: seq<T>, f: T -> Assignment, i: nat)
    requires i < |xs|
    ensures |Assignments(xs, f)| == |xs| && Assignments(xs, f)[i] == f(xs[i])
  {
    var init := xs[..|xs| - 1];
    AssignmentsLength(init, f);
    if i < |init| {
      AssignmentsAt(init, f, i);
    }
  }

  function RawAssignments(xs: seq<Field>): seq<Assignment> {
    Assignments(xs, RawAssignment)
  }

  function LegacyAssignments(xs: seq<Field>): seq<Assignment> {
    Assignments(xs, LegacyAssignment)
  }

  lemma {:induction false} RawAreAssigned(fields: seq<Field>)
    ensures AddParameters([], fields) == Assigned(RawAssignments(fields))
  {
    if fields != [] {
      var (init, last) := (fields[..|fields| - 1], fields[|fields| - 1]);
      RawAreAssigned(init);
      OneMoreAssignment([], RawAssignments(init), RawAssignment(last));
      assert [] + (RawAssignments(init) + [RawAssignment(last)]) == RawAssignments(fields);
      assert [] + RawAssignments(init) == RawAssignments(init);
    }
  }

  lemma OneMoreParameter(raw: seq<Field>, kept: seq<Field>, last: Field)
    ensures AddParameters([], raw + (kept + [last])) == AddParameter(AddParameters([], raw + kept), last)
  {
    assert raw + (kept + [last]) == (raw + kept) + [last];
    AddOneParameter(raw + kept, last);
  }

  lemma AddOneParameter(init: seq<Field>, last: Field)
    ensures AddParameters([], init + [last]) == AddParameter(AddParameters([], init), last)
  {
    assert (init + [last])[..|init|] == init;
  }

  lemma OneMoreAssignment(a: seq<Assignment>, b: seq<Assignment>, last: Assignment)
    ensures Assigned(a + (b + [last]))
         == if last.name == "" then Assigned(a + b) else Put(Assigned(a + b), last.name, Str(last.text))
  {
    var all := a + (b + [last]);
    assert all[..|all| - 1] == a + b && all[|all| - 1] == last;
  }

  lemma {:induction false} LegacyAreAssigned(raw: seq<Field>, fields: seq<Field>)
    ensures AddParameters([], raw + LegacyFields(fields)) == Assigned(RawAssignments(raw) + LegacyAssignments(fields))
  {
    if fields == [] {
      RawAreAssigned(raw);
      assert raw + [] == raw && RawAssignments(raw) + LegacyAssignments([]) == RawAssignments(raw);
    } else {
      var (init, last) := (fields[..|fields| - 1], fields[|fields| - 1]);
      LegacyAreAssigned(raw, init);
      OneMoreAssignment(RawAssignments(raw), LegacyAssignments(init), LegacyAssignment(last));
      if IsStructural(last.key) || last.value.Null? {
        assert LegacyFields(fields) == LegacyFields(init);
      } else {
        OneMoreParameter(raw, LegacyFields(init), last);
      }
    }
  }

  /** The field writes this text as the parameter: as one of the parameters, or as a legacy key of the step. */
  predicate Writes(field: Field, legacy: bool, name: string, text: string) {
    && Strip(ToString(field.key)) == name && ToString(field.value) == text
    && (legacy ==> !IsStructural(field.key) && !field.value.Null?)
  }

  ghost predicate WritesSome(fields: seq<Field>, legacy: bool, name: string) {
    exists i :: 0 <= i < |fields| && Writes(fields[i], legacy, name, ToString(fields[i].value))
  }

  /** The last field that writes the parameter writes this text. */
  ghost predicate LastWrites(fields: seq<Field>, legacy: bool, name: string, text: string) {
    exists i :: 0 <= i < |fields| && LastWriteAt(fields, legacy, name, text, i)
  }

  predicate LastWriteAt(fields: seq<Field>, legacy: bool, name: string, text: string, i: nat)
    requires i < |fields|
  {
    Writes(fields[i], legacy, name, text)
    && forall j :: i < j < |fields| ==> !Writes(fields[j], legacy, name, ToString(fields[j].value))
  }

  lemma WritesAreAssignments(fields: seq<Field>, legacy: bool, name: string, text: string)
    requires name != ""
    ensures var list := if legacy then LegacyAssignments(fields) else RawAssignments(fields);
      && (LastAssigns(list, name, text) <==> LastWrites(fields, legacy, name, text))
      && (Assigns(list, name) <==> WritesSome(fields, legacy, name))
  {
    var list := if legacy then LegacyAssignments(fields) else RawAssignments(fields);
    AssignmentsLength(fields, LegacyAssignment);
    AssignmentsLength(fields, RawAssignment);
    forall i | 0 <= i < |fields|
      ensures list[i] == if legacy then LegacyAssignment(fields[i]) else RawAssignment(fields[i])
    {
      AssignmentsAt(fields, LegacyAssignment, i);
      AssignmentsAt(fields, RawAssignment, i);
    }
    assert forall i :: 0 <= i < |fields| ==>
      (list[i].name == name <==> Writes(fields[i], legacy, name, ToString(fields[i].value)));
    if LastAssigns(list, name, text) {
      var i :| 0 <= i < |list| && LastAt(list, name, text, i);
      assert LastWriteAt(fields, legacy, name, text, i);
    }
    if LastWrites(fields, legacy, name, text) {
      var i :| 0 <= i < |fields| && LastWriteAt(fields, legacy, name, text, i);
      assert LastAt(list, name, text, i);
    }
  }

  /**
   A step gets this text as a parameter if and only if the last legacy key of that name has it, or no legacy key has
   the name and the last of the raw parameters of that name has it; it gets none if neither has the name.
   */
  lemma LegacyFieldsWin(step: Node, name: string, text: string)
    requires step.Map? && name != ""
    ensures var raw := GetOr(step, "parameters", Null);
      var given := if raw.Map? then raw.fields else [];
      && (GetField(RawParameters(step), name) == Some(Str(text))
          <==> || LastWrites(step.fields, true, name, text)
               || (!WritesSome(step.fields, true, name) && LastWrites(given, false, name, text)))
      && (GetField(RawParameters(step), name) == None
          <==> !WritesSome(step.fields, true, name) && !WritesSome(given, false, name))
  {
    var raw := GetOr(step, "parameters", Null);
    var given := if raw.Map? then raw.fields else [];
    var (a, b) := (RawAssignments(given), LegacyAssignments(step.fields));
    LegacyAreAssigned(given, step.fields);
    AssignedExactly(a + b, name, text);
    LastAssignsConcat(a, b, name, text);
    AssignsConcat(a, b, name);
    WritesAreAssignments(given, false, name, text);
    WritesAreAssignments(step.fields, true, name, text);
  }

  lemma AssignsConcat(a: seq<Assignment>, b: seq<Assignment>, name: string)
    ensures Assigns(a + b, name) <==> Assigns(a, name) || Assigns(b, name)
  {
    if Assigns(b, name) {
      var i :| 0 <= i < |b| && b[i].name == name;
      assert (a + b)[|a| + i] == b[i];
    }
    if Assigns(a, name) {
      var i :| 0 <= i < |a| && a[i].name == name;
      assert (a + b)[i] == a[i];
    }
  }

  // ---- Branches ----

  const CONDITION_NAMES := ["condition", "when", "case", "label", "if"]
  const TARGET_NAMES := ["next", "to", "target", "step"]

  function BranchAssignment(condition: string, target: string): Assignment {
    if target == "" then NO_ASSIGNMENT else Assignment(condition, target)
  }

  function ItemAssignment(item: Node): Assignment {
    if !item.Map? then NO_ASSIGNMENT
    else BranchAssignment(Strip(ToString(ReadMappingValue(item, CONDITION_NAMES))),
                          Strip(ToString(ReadMappingValue(item, TARGET_NAMES))))
  }

  function FieldAssignment(field: Field): Assignment {
    BranchAssignment(Strip(ToString(field.key)), BranchTarget(field.value))
  }

  function FieldAssignments(xs: seq<Field>): seq<Assignment> {
    Assignments(xs, FieldAssignment)
  }

  function ItemAssignments(xs: seq<Node>): seq<Assignment> {
    Assignments(xs, ItemAssignment)
  }

  function BranchAssignments(raw: Node): seq<Assignment> {
    match raw
    case Map(fields) => FieldAssignments(fields)
    case List(items) => ItemAssignments(items)
    case _ => []
  }

  lemma OneMoreBranch(list: seq<Assignment>, condition: string, target: string)
    ensures Assigned(list + [BranchAssignment(condition, target)]) == AddBranch(Assigned(list), condition, target)
  {
    var all := list + [BranchAssignment(condition, target)];
    assert all[..|list|] == list;
  }

  lemma {:induction false} FieldBranchesAreAssigned(fields: seq<Field>)
    ensures BranchesOfFields(fields) == Assigned(FieldAssignments(fields))
  {
    if fields != [] {
      var (init, last) := (fields[..|fields| - 1], fields[|fields| - 1]);
      FieldBranchesAreAssigned(init);
      OneMoreBranch(FieldAssignments(init), Strip(ToString(last.key)), BranchTarget(last.value));
    }
  }

  lemma {:induction false} ItemBranchesAreAssigned(items: seq<Node>)
    ensures BranchesOfItems(items) == Assigned(ItemAssignments(items))
  {
    if items != [] {
      var (init, last) := (items[..|items| - 1], items[|items| - 1]);
      ItemBranchesAreAssigned(init);
      var before := ItemAssignments(init);
      if last.Map? {
        OneMoreBranch(before, Strip(ToString(ReadMappingValue(last, CONDITION_NAMES))),
                      Strip(ToString(ReadMappingValue(last, TARGET_NAMES))));
      } else {
        OneMoreBranch(before, "", "");
      }
    }
  }

  /** The text of what the mapping holds under the names. */
  ghost predicate HoldsText(node: Node, names: seq<string>, text: string)
    requires node.Map?
  {
    exists value :: Holds(node, names, value) && Strip(ToString(value)) == text
  }

  /** The entry at this position leads from the condition to the target. */
  ghost predicate Leads(raw: Node, i: nat, condition: string, target: string) {
    && condition != "" && target != ""
    && match raw
       case Map(fields) =>
         && i < |fields| && Strip(ToString(fields[i].key)) == condition
         && (if fields[i].value.Map? then HoldsText(fields[i].value, TARGET_NAMES, target)
             else Strip(ToString(fields[i].value)) == target)
       case List(items) =>
         && i < |items| && items[i].Map?
         && HoldsText(items[i], CONDITION_NAMES, condition) && HoldsText(items[i], TARGET_NAMES, target)
       case _ => false
  }

  lemma HoldsTextIs(node: Node, names: seq<string>, text: string)
    requires node.Map?
    ensures HoldsText(node, names, text) <==> Strip(ToString(ReadMappingValue(node, names))) == text
  {
    var read := ReadMappingValue(node, names);
    ReadMappingValueExactly(node, names, read);
    if HoldsText(node, names, text) {
      var value :| Holds(node, names, value) && Strip(ToString(value)) == text;
      ReadMappingValueExactly(node, names, value);
    }
  }

  lemma LeadsIs(raw: Node, i: nat, condition: string, target: string)
    requires condition != ""
    ensures Leads(raw, i, condition, target)
      <==> i < |BranchAssignments(raw)| && BranchAssignments(raw)[i] == Assignment(condition, target)
  {
    match raw
    case Map(fields) =>
      AssignmentsLength(fields, FieldAssignment);
      if i < |fields| {
        AssignmentsAt(fields, FieldAssignment, i);
      }
      if i < |fields| && fields[i].value.Map? {
        HoldsTextIs(fields[i].value, TARGET_NAMES, target);
      }
    case List(items) =>
      AssignmentsLength(items, ItemAssignment);
      if i < |items| {
        AssignmentsAt(items, ItemAssignment, i);
      }
      if i < |items| && items[i].Map? {
        HoldsTextIs(items[i], CONDITION_NAMES, condition);
        HoldsTextIs(items[i], TARGET_NAMES, target);
      }
    case _ =>
  }

  /** The last entry that leads anywhere from the condition leads to this target. */
  ghost predicate LastLeads(raw: Node, condition: string, target: string) {
    exists i: nat :: Leads(raw, i, condition, target) && LeadsNowhereAfter(raw, i, condition)
  }

  ghost predicate LeadsNowhereAfter(raw: Node, i: nat, condition: string) {
    forall j: nat, target :: i < j ==> !Leads(raw, j, condition, target)
  }

  /**
   Branches, given as a dict or as a list, become the dict from each condition to the target of the last entry that
   leads anywhere from it, and have no other conditions.
   */
  lemma LastBranchWins(raw: Node, condition: string, target: string)
    requires condition != ""
    ensures GetField(NormalizeBranches(raw), condition) == Some(Str(target)) <==> LastLeads(raw, condition, target)
    ensures GetField(NormalizeBranches(raw), condition) == None <==> forall i: nat, t :: !Leads(raw, i, condition, t)
  {
    var list := BranchAssignments(raw);
    if raw.Map? {
      FieldBranchesAreAssigned(raw.fields);
    } else if raw.List? {
      ItemBranchesAreAssigned(raw.items);
    }
    AssignedExactly(list, condition, target);
    forall i: nat, t
      ensures Leads(raw, i, condition, t) <==> i < |list| && list[i] == Assignment(condition, t)
    {
      LeadsIs(raw, i, condition, t);
    }
    LastLeadsIs(raw, condition, target);
    if Assigns(list, condition) {
      var i :| 0 <= i < |list| && list[i].name == condition;
      assert Leads(raw, i, condition, list[i].text);
    }
  }

  lemma LastLeadsIs(raw: Node, condition: string, target: string)
    requires forall i: nat, t :: Leads(raw, i, condition, t)
               <==> i < |BranchAssignments(raw)| && BranchAssignments(raw)[i] == Assignment(condition, t)
    ensures LastLeads(raw, condition, target) <==> LastAssigns(BranchAssignments(raw), condition, target)
  {
    var list := BranchAssignments(raw);
    if LastAssigns(list, condition, target) {
      var i :| 0 <= i < |list| && LastAt(list, condition, target, i);
      assert Leads(raw, i, condition, target) && LeadsNowhereAfter(raw, i, condition);
    }
    if LastLeads(raw, condition, target) {
      var i: nat :| Leads(raw, i, condition, target) && LeadsNowhereAfter(raw, i, condition);
      forall j | i < j < |list|
        ensures list[j].name != condition
      {
        assert !Leads(raw, j, condition, list[j].text);
      }
      assert LastAt(list, condition, target, i);
    }
  }

  const ROLE_NAMES := ["target_role", "role", "agent"]

  /** The target role is the text of the first of the three keys that is not blank, and the last one's if all are. */
  lemma FirstRoleWins(step: Node, k: nat)
    requires step.Map? && k < 3 && forall j :: 0 <= j < k ==> TextAt(step, ROLE_NAMES[j]) == ""
    ensures TextAt(step, ROLE_NAMES[k]) != "" || k == 2 ==> TargetRole(step) == TextAt(step, ROLE_NAMES[k])
  {
    assert k > 0 ==> TextAt(step, ROLE_NAMES[0]) == "";
    assert k > 1 ==> TextAt(step, ROLE_NAMES[1]) == "";
  }

  lemma StripIsStripped(s: string)
    ensures Stripped(Strip(s)) && (Strip(s) == s <==> Stripped(s))
  {
    TrimIsTrimmed(s, IsPythonSpace);
  }

  lemma {:induction false} ParametersAreClean(fields: seq<Field>)
    ensures CleanDict(AddParameters([], fields))
  {
    if fields != [] {
      var (init, last) := (fields[..|fields| - 1], fields[|fields| - 1]);
      ParametersAreClean(init);
      var key := Strip(ToString(last.key));
      StripIsStripped(ToString(last.key));
      if key != "" {
        PutKeepsClean(AddParameters([], init), key, ToString(last.value));
      }
    }
  }

  lemma AddBranchKeepsClean(out: seq<Field>, key: string, target: string)
    requires CleanBranches(out) && Stripped(key) && Stripped(target)
    ensures CleanBranches(AddBranch(out, key, target))
  {
    if key != "" && target != "" {
      PutKeepsClean(out, key, target);
    }
  }

  lemma {:induction false} FieldBranchesAreClean(fields: seq<Field>)
    ensures CleanBranches(BranchesOfFields(fields))
  {
    if fields != [] {
      var (init, last) := (fields[..|fields| - 1], fields[|fields| - 1]);
      FieldBranchesAreClean(init);
      StripIsStripped(ToString(last.key));
      StripIsStripped(ToString(if last.value.Map? then ReadMappingValue(last.value, ["next", "to", "target", "step"]) else last.value));
      AddBranchKeepsClean(BranchesOfFields(init), Strip(ToString(last.key)), BranchTarget(last.value));
    }
  }

  lemma {:induction false} ItemBranchesAreClean(items: seq<Node>)
    ensures CleanBranches(BranchesOfItems(items))
  {
    if items != [] {
      var (init, last) := (items[..|items| - 1], items[|items| - 1]);
      ItemBranchesAreClean(init);
      if last.Map? {
        var key := ToString(ReadMappingValue(last, ["condition", "when", "case", "label", "if"]));
        var target := ToString(ReadMappingValue(last, ["next", "to", "target", "step"]));
        StripIsStripped(key);
        StripIsStripped(target);
        AddBranchKeepsClean(BranchesOfItems(init), Strip(key), Strip(target));
      }
    }
  }

  lemma CleanPrefix(fields: seq<Field>, n: nat)
    requires CleanDict(fields) && n <= |fields|
    ensures CleanDict(fields[..n]) && (CleanBranches(fields) ==> CleanBranches(fields[..n]))
  {
  }

  /** Collecting the fields of a clean dict again changes nothing. */
  lemma {:induction false} CleanParametersAreStable(fields: seq<Field>)
    requires CleanDict(fields)
    ensures AddParameters([], fields) == fields
  {
    if fields != [] {
      var (init, last) := (fields[..|fields| - 1], fields[|fields| - 1]);
      CleanPrefix(fields, |init|);
      CleanParametersAreStable(init);
      StripIsStripped(last.key.s);
      PutNew(init, last.key.s, last.value);
    }
  }

  lemma TextBranch(out: seq<Field>, key: string, target: string)
    requires Stripped(key) && Stripped(target) && key != "" && target != ""
    ensures AddBranch(out, Strip(ToString(Str(key))), BranchTarget(Str(target))) == Put(out, key, Str(target))
  {
    StripIsStripped(key);
    StripIsStripped(target);
  }

  lemma AddOneBranch(init: seq<Field>, last: Field)
    ensures BranchesOfFields(init + [last])
         == AddBranch(BranchesOfFields(init), Strip(ToString(last.key)), BranchTarget(last.value))
  {
    assert (init + [last])[..|init|] == init;
  }

  lemma LastIsClean(before: seq<Field>, last: Field)
    requires CleanBranches(before + [last])
    ensures last.key.Str? && last.value.Str? && last.key.s != "" && last.value.s != ""
    ensures Stripped(last.key.s) && Stripped(last.value.s)
    ensures forall i :: 0 <= i < |before| ==> before[i].key != last.key
  {
    var fields := before + [last];
    assert fields[|before|] == last && forall i :: 0 <= i < |before| ==> fields[i] == before[i];
  }

  lemma CleanBranchIsKept(before: seq<Field>, last: Field)
    requires BranchesOfFields(before) == before && CleanBranches(before + [last])
    ensures BranchesOfFields(before + [last]) == before + [last]
  {
    LastIsClean(before, last);
    AddOneBranch(before, last);
    TextBranch(before, last.key.s, last.value.s);
    PutNew(before, last.key.s, last.value);
  }

  lemma {:induction false} FirstBranchesAreStable(fields: seq<Field>, n: nat)
    requires CleanBranches(fields) && n <= |fields|
    ensures BranchesOfFields(fields[..n]) == fields[..n]
  {
    if n > 0 {
      var (before, last) := (fields[..n - 1], fields[n - 1]);
      FirstBranchesAreStable(fields, n - 1);
      CleanPrefix(fields, n);
      assert fields[..n] == before + [last];
      CleanBranchIsKept(before, last);
    }
  }

  lemma CleanBranchesAreStable(fields: seq<Field>)
    requires CleanBranches(fields)
    ensures BranchesOfFields(fields) == fields
  {
    FirstBranchesAreStable(fields, |fields|);
    assert fields[..|fields|] == fields;
  }

  // ---- A normalized step reads back unchanged ----

  ghost predicate Stable(node: Node) {
    node.Map? && forall g :: NormalizeStep(node, g) == node
  }

  ghost predicate CleanStep(s: Step) {
    && s.id != "" && Stripped(s.id) && s.kind != "" && Stripped(s.kind) && Stripped(s.role) && Stripped(s.next)
    && CleanBranches(s.branches) && CleanDict(s.parameters)
    && Stripped(s.retry.backoff)
    && Stripped(s.onError.strategy) && Stripped(s.onError.fallbackStep) && Stripped(s.onError.defaultOutput)
    && forall i :: 0 <= i < |s.children| ==> Stable(s.children[i])
  }

  lemma NumberReadsBack(node: Node, name: string, n: Option<int>)
    requires Get(node, name) == Number(n)
    ensures IntLike(GetOr(node, name, Null)) == n
  {
  }

  lemma TextReadsBack(node: Node, name: string, text: string)
    requires Get(node, name) == NonBlank(text) && Stripped(text)
    ensures TextAt(node, name) == text
  {
    StripIsStripped(text);
  }

  /** The dict of the present fields, or nothing when there are none. */
  function Written(names: seq<string>, values: seq<Option<Node>>): Node
    requires |names| == |values|
  {
    var fields := Present(names, values);
    if fields == [] then Null else Map(fields)
  }

  lemma GetWritten(names: seq<string>, values: seq<Option<Node>>, i: nat)
    requires |names| == |values| && Distinct(names) && i < |names|
    ensures Get(Written(names, values), names[i]) == values[i]
  {
    GetPresent(names, values, i);
  }

  lemma RetryReadsBack(r: Retry)
    requires Stripped(r.backoff)
    ensures NormalizeRetry(Written(RETRY_NAMES, RetryValues(r))) == r
  {
    NamesAreDistinct();
    GetWritten(RETRY_NAMES, RetryValues(r), 0);
    GetWritten(RETRY_NAMES, RetryValues(r), 1);
    GetWritten(RETRY_NAMES, RetryValues(r), 2);
    var node := Written(RETRY_NAMES, RetryValues(r));
    NumberReadsBack(node, "max_attempts", r.maxAttempts);
    TextReadsBack(node, "backoff", r.backoff);
    NumberReadsBack(node, "delay_ms", r.delayMs);
  }

  lemma OnErrorReadsBack(e: OnError)
    requires Stripped(e.strategy) && Stripped(e.fallbackStep) && Stripped(e.defaultOutput)
    ensures NormalizeOnError(Written(ON_ERROR_NAMES, OnErrorValues(e))) == e
  {
    NamesAreDistinct();
    GetWritten(ON_ERROR_NAMES, OnErrorValues(e), 0);
    GetWritten(ON_ERROR_NAMES, OnErrorValues(e), 1);
    GetWritten(ON_ERROR_NAMES, OnErrorValues(e), 2);
    var node := Written(ON_ERROR_NAMES, OnErrorValues(e));
    TextReadsBack(node, "strategy", e.strategy);
    TextReadsBack(node, "fallback_step", e.fallbackStep);
    TextReadsBack(node, "default_output", e.defaultOutput);
  }

  lemma EmittedAt(s: Step, i: nat)
    requires i < |STEP_NAMES|
    ensures Get(Emit(s), STEP_NAMES[i]) == StepValues(s)[i]
  {
    StepNamesAreDistinct();
    GetPresent(STEP_NAMES, StepValues(s), i);
  }

  lemma EmittedTexts(s: Step)
    ensures Get(Emit(s), "id") == Some(Str(s.id)) && Get(Emit(s), "type") == Some(Str(s.kind))
    ensures Get(Emit(s), "target_role") == NonBlank(s.role) && Get(Emit(s), "next") == NonBlank(s.next)
  {
    EmittedAt(s, 0);
    EmittedAt(s, 1);
    EmittedAt(s, 2);
    EmittedAt(s, 3);
  }

  lemma EmittedLists(s: Step)
    ensures Get(Emit(s), "children") == if s.children == [] then None else Some(List(s.children))
    ensures Get(Emit(s), "parameters") == Dict(s.parameters)
  {
    EmittedAt(s, 8);
    EmittedAt(s, 9);
  }

  lemma EmittedNothingElse(s: Step, name: string)
    requires name !in STEP_NAMES
    ensures Get(Emit(s), name) == None
  {
    GetAbsent(STEP_NAMES, StepValues(s), name);
  }

  lemma {:induction false} NoLegacyFields(fields: seq<Field>)
    requires forall i :: 0 <= i < |fields| ==> IsStructural(fields[i].key)
    ensures LegacyFields(fields) == []
  {
    if fields != [] {
      NoLegacyFields(fields[..|fields| - 1]);
    }
  }

  /** A normalized step has no keys but the ten of the target schema. */
  lemma OnlySchemaKeys(s: Step, i: nat)
    requires i < |Emit(s).fields|
    ensures Emit(s).fields[i].key.Str? && Emit(s).fields[i].key.s in STEP_NAMES
  {
    PresentKeys(STEP_NAMES, StepValues(s), i);
  }

  lemma ParametersReadBack(s: Step)
    requires CleanDict(s.parameters)
    ensures RawParameters(Emit(s)) == s.parameters
  {
    StepNamesAreStructural();
    forall i | 0 <= i < |Emit(s).fields|
      ensures IsStructural(Emit(s).fields[i].key)
    {
      OnlySchemaKeys(s, i);
    }
    NoLegacyFields(Emit(s).fields);
    EmittedLists(s);
    CleanParametersAreStable(s.parameters);
    assert s.parameters + [] == s.parameters;
  }

  lemma {:induction false} StableListReadsBack(items: seq<Node>, prefix: string, index: nat)
    requires forall i :: 0 <= i < |items| ==> Stable(items[i])
    ensures NormalizeList(items, prefix, index) == items
  {
    if items != [] {
      StableListReadsBack(items[1..], prefix, index + 1);
      assert Stable(items[0]);
      assert items == [items[0]] + items[1..];
    }
  }

  lemma ChildrenReadBack(s: Step, id: string)
    requires forall i :: 0 <= i < |s.children| ==> Stable(s.children[i])
    ensures NormalizeChildren(Emit(s), id) == s.children
  {
    StepNamesAreDistinct();
    EmittedLists(s);
    EmittedNothingElse(s, "steps");
    EmittedNothingElse(s, "step");
    StableListReadsBack(s.children, id + "_children_", 1);
    assert s.children + [] + [] == s.children;
  }

  lemma TargetReadsBack(s: Step)
    requires Stripped(s.role)
    ensures TargetRole(Emit(s)) == s.role
  {
    StepNamesAreDistinct();
    EmittedTexts(s);
    EmittedNothingElse(s, "role");
    EmittedNothingElse(s, "agent");
    StripIsStripped("");
    TextReadsBack(Emit(s), "target_role", s.role);
  }

  lemma HeaderReadsBack(s: Step)
    requires Stripped(s.id) && s.id != "" && Stripped(s.kind) && s.kind != "" && Stripped(s.next)
    ensures TextAt(Emit(s), "id") == s.id && TextAt(Emit(s), "type") == s.kind && TextAt(Emit(s), "next") == s.next
  {
    EmittedTexts(s);
    TextReadsBack(Emit(s), "id", s.id);
    TextReadsBack(Emit(s), "type", s.kind);
    TextReadsBack(Emit(s), "next", s.next);
  }

  lemma DictBranchesReadBack(node: Node, branches: seq<Field>)
    requires CleanBranches(branches) && Get(node, "branches") == Dict(branches)
    ensures NormalizeBranches(GetOr(node, "branches", Null)) == branches
  {
    CleanBranchesAreStable(branches);
  }

  lemma BranchesReadBack(s: Step)
    requires CleanBranches(s.branches)
    ensures NormalizeBranches(GetOr(Emit(s), "branches", Null)) == s.branches
  {
    EmittedAt(s, 4);
    DictBranchesReadBack(Emit(s), s.branches);
  }

  lemma NestedReadBack(s: Step)
    requires Stripped(s.retry.backoff)
    requires Stripped(s.onError.strategy) && Stripped(s.onError.fallbackStep) && Stripped(s.onError.defaultOutput)
    ensures NormalizeRetry(GetOr(Emit(s), "retry", Null)) == s.retry
    ensures NormalizeOnError(GetOr(Emit(s), "on_error", Null)) == s.onError
  {
    assert GetOr(Emit(s), "retry", Null) == Written(RETRY_NAMES, RetryValues(s.retry)) by {
      EmittedAt(s, 5);
    }
    assert GetOr(Emit(s), "on_error", Null) == Written(ON_ERROR_NAMES, OnErrorValues(s.onError)) by {
      EmittedAt(s, 6);
    }
    RetryReadsBack(s.retry);
    OnErrorReadsBack(s.onError);
  }

  lemma TimeoutReadsBack(s: Step)
    ensures IntLike(GetOr(Emit(s), "timeout_ms", Null)) == s.timeoutMs
  {
    EmittedAt(s, 7);
    NumberReadsBack(Emit(s), "timeout_ms", s.timeoutMs);
  }

  lemma Assemble(node: Node, s: Step, fallbackId: string)
    requires node.Map?
    requires TextAt(node, "id") == s.id && s.id != "" && TextAt(node, "type") == s.kind && s.kind != ""
    requires TextAt(node, "next") == s.next && TargetRole(node) == s.role
    requires NormalizeBranches(GetOr(node, "branches", Null)) == s.branches
    requires NormalizeRetry(GetOr(node, "retry", Null)) == s.retry
    requires NormalizeOnError(GetOr(node, "on_error", Null)) == s.onError
    requires IntLike(GetOr(node, "timeout_ms", Null)) == s.timeoutMs
    requires NormalizeChildren(node, s.id) == s.children && RawParameters(node) == s.parameters
    ensures ReadStep(node, fallbackId) == s
  {
  }

  /** Reading a written, clean step gives the step back, whatever fallback id is offered. */
  lemma StepReadsBack(s: Step, fallbackId: string)
    requires CleanStep(s)
    ensures ReadStep(Emit(s), fallbackId) == s
  {
    HeaderReadsBack(s);
    BranchesReadBack(s);
    NestedReadBack(s);
    TimeoutReadsBack(s);
    TargetReadsBack(s);
    ParametersReadBack(s);
    ChildrenReadBack(s, s.id);
    Assemble(Emit(s), s, fallbackId);
  }

  // ---- Idempotence ----

  lemma {:induction false} DecimalEndsInDigit(n: nat)
    ensures Decimal(n) != "" && !IsPythonSpace(Decimal(n)[|Decimal(n)| - 1])
  {
  }

  /** A fallback id built from a step id is never blank and needs no stripping. */
  lemma ChildIdIsStripped(id: string, middle: string, index: nat)
    requires id != "" && Stripped(id)
    ensures var child := id + middle + Decimal(index); child != "" && Stripped(child)
  {
    DecimalEndsInDigit(index);
  }

  lemma TextIsStripped(node: Node, name: string)
    ensures Stripped(TextAt(node, name))
  {
    StripIsStripped(ToString(GetOr(node, name, Null)));
  }

  lemma BranchesAreClean(raw: Node)
    ensures CleanBranches(NormalizeBranches(raw))
  {
    if raw.Map? {
      FieldBranchesAreClean(raw.fields);
    } else if raw.List? {
      ItemBranchesAreClean(raw.items);
    }
  }

  lemma OnErrorIsClean(raw: Node)
    ensures var e := NormalizeOnError(raw); Stripped(e.strategy) && Stripped(e.fallbackStep) && Stripped(e.defaultOutput)
  {
    TextIsStripped(raw, "strategy");
    TextIsStripped(raw, "fallback_step");
    TextIsStripped(raw, "default_output");
  }

  lemma RawParametersAreClean(step: Node)
    requires step.Map?
    ensures CleanDict(RawParameters(step))
  {
    var raw := GetOr(step, "parameters", Null);
    ParametersAreClean((if raw.Map? then raw.fields else []) + LegacyFields(step.fields));
  }

  lemma TypeIsClean(step: Node)
    ensures StepType(step) != "" && Stripped(StepType(step))
  {
    TextIsStripped(step, "type");
    assert DEFAULT_TYPE[0] == 'l' && DEFAULT_TYPE[|DEFAULT_TYPE| - 1] == 'l';
  }

  lemma TargetIsStripped(step: Node)
    ensures Stripped(TargetRole(step))
  {
    TextIsStripped(step, "target_role");
    TextIsStripped(step, "role");
    TextIsStripped(step, "agent");
  }

  lemma HeaderIsClean(step: Node, fallbackId: string)
    requires step.Map? && KeepsItsId(step, fallbackId)
    ensures StepId(step, fallbackId) != "" && Stripped(StepId(step, fallbackId))
    ensures StepType(step) != "" && Stripped(StepType(step))
    ensures Stripped(TargetRole(step)) && Stripped(TextAt(step, "next"))
  {
    TextIsStripped(step, "id");
    TypeIsClean(step);
    TextIsStripped(step, "next");
    TargetIsStripped(step);
  }

  lemma ReadStepIsClean(step: Node, fallbackId: string)
    requires step.Map? && KeepsItsId(step, fallbackId)
    requires forall i :: 0 <= i < |ReadStep(step, fallbackId).children| ==> Stable(ReadStep(step, fallbackId).children[i])
    ensures CleanStep(ReadStep(step, fallbackId))
  {
    HeaderIsClean(step, fallbackId);
    BranchesAreClean(GetOr(step, "branches", Null));
    OnErrorIsClean(GetOr(step, "on_error", Null));
    TextIsStripped(GetOr(step, "retry", Null), "backoff");
    RawParametersAreClean(step);
  }

  /** The id that a first pass gives is one that a second pass keeps. */
  ghost predicate KeepsItsId(step: Node, fallbackId: string) {
    TextAt(step, "id") != "" || (fallbackId != "" && Stripped(fallbackId))
  }

  lemma EmitKeepsId(s: Step, t: Step)
    requires Emit(s) == Emit(t)
    ensures s.id == t.id
  {
    EmittedAt(s, 0);
    EmittedAt(t, 0);
  }

  lemma ReadIdIsClean(step: Node, fallbackId: string)
    requires step.Map? && KeepsItsId(step, fallbackId)
    ensures ReadStep(step, fallbackId).id != "" && Stripped(ReadStep(step, fallbackId).id)
  {
    HeaderIsClean(step, fallbackId);
  }

  lemma UncleanIdChanges(s: Step)
    requires s.id == "" || !Stripped(s.id)
    ensures NormalizeStep(Emit(s), "x") != Emit(s)
  {
    ReadIdIsClean(Emit(s), "x");
    var again := ReadStep(Emit(s), "x");
    if Emit(again) == Emit(s) {
      EmitKeepsId(again, s);
    }
  }

  lemma SecondPassChangesId(step: Node, fallbackId: string)
    requires step.Map? && !KeepsItsId(step, fallbackId)
    ensures NormalizeStep(NormalizeStep(step, fallbackId), "x") != NormalizeStep(step, fallbackId)
  {
    UncleanIdChanges(ReadStep(step, fallbackId));
  }

  /**
   Normalizing is idempotent exactly when the step has an id of its own, or the fallback id is not blank and
   needs no stripping: then, whatever the raw step and whatever is nested in it, a second pass changes nothing.
   */
  lemma IdempotentExactly(step: Node, fallbackId: string)
    requires step.Map?
    ensures (forall g :: NormalizeStep(NormalizeStep(step, fallbackId), g) == NormalizeStep(step, fallbackId))
       <==> KeepsItsId(step, fallbackId)
  {
    if KeepsItsId(step, fallbackId) {
      NormalizeStepIsIdempotent(step, fallbackId);
    } else {
      SecondPassChangesId(step, fallbackId);
    }
  }

  lemma {:induction false} NormalizeStepIsIdempotent(step: Node, fallbackId: string)
    requires step.Map? && KeepsItsId(step, fallbackId)
    ensures forall g :: NormalizeStep(NormalizeStep(step, fallbackId), g) == NormalizeStep(step, fallbackId)
    decreases step, 2
  {
    var s := ReadStep(step, fallbackId);
    HeaderIsClean(step, fallbackId);
    NormalizedChildrenAreStable(step, s.id);
    ReadStepIsClean(step, fallbackId);
    forall g
      ensures NormalizeStep(Emit(s), g) == Emit(s)
    {
      StepReadsBack(s, g);
    }
  }

  ghost predicate AllStable(nodes: seq<Node>) {
    forall i :: 0 <= i < |nodes| ==> Stable(nodes[i])
  }

  lemma {:induction false} NormalizedChildrenAreStable(step: Node, id: string)
    requires step.Map? && id != "" && Stripped(id)
    ensures AllStable(NormalizeChildren(step, id))
    decreases step, 1
  {
    ListPartIsStable(step, "children", id, "_children_");
    ListPartIsStable(step, "steps", id, "_steps_");
    OnePartIsStable(step, id);
    PartsBelow(step, id);
  }

  lemma {:induction false} ListPartIsStable(step: Node, name: string, id: string, middle: string)
    requires step.Map? && id != "" && Stripped(id)
    ensures AllStable(NormalizeList(ListAt(step, name), id + middle, 1))
    decreases step, 0
  {
    var list := Get(step, name);
    if list.Some? && list.value.List? {
      NormalizedListIsStable(list.value.items, id, middle, 1);
    }
  }

  lemma {:induction false} OnePartIsStable(step: Node, id: string)
    requires step.Map? && id != "" && Stripped(id)
    ensures AllStable(NormalizedOne(step, id))
    decreases step, 0
  {
    var one := Get(step, "step");
    if one.Some? && one.value.Map? {
      NormalizeStepIsIdempotent(one.value, id + "_step");
    }
  }

  lemma {:induction false} NormalizedListIsStable(items: seq<Node>, id: string, middle: string, index: nat)
    requires id != "" && Stripped(id)
    ensures AllStable(NormalizeList(items, id + middle, index))
    decreases items, 3
  {
    if items != [] {
      NormalizedListIsStable(items[1..], id, middle, index + 1);
      var fallbackId := id + middle + Decimal(index);
      var head := if items[0].Map? then [NormalizeStep(items[0], fallbackId)] else [];
      if items[0].Map? {
        ChildIdIsStripped(id, middle, index);
        NormalizeStepIsIdempotent(items[0], fallbackId);
      }
      assert AllStable(head);
      assert NormalizeList(items, id + middle, index) == head + NormalizeList(items[1..], id + middle, index + 1);
    }
  }

  // ---- Conservation ----

  /** What a step says of itself, without the steps nested in it. */
  function Declared(step: Node): Step
    requires step.Map?
  {
    Step(TextAt(step, "id"), StepType(step), TargetRole(step), TextAt(step, "next"),
         NormalizeBranches(GetOr(step, "branches", Null)), NormalizeRetry(GetOr(step, "retry", Null)),
         NormalizeOnError(GetOr(step, "on_error", Null)), IntLike(GetOr(step, "timeout_ms", Null)),
         [], RawParameters(step))
  }

  /** The step and, in document order, every mapping below its `children`, `steps` and `step`. */
  function Preorder(step: Node): seq<Step>
    requires step.Map?
    decreases step, 2
  {
    [Declared(step)] + PreorderBelow(step)
  }

  function PreorderBelow(step: Node): seq<Step>
    requires step.Map?
    decreases step, 0
  {
    var (children, steps, one) := (Get(step, "children"), Get(step, "steps"), Get(step, "step"));
    (if children.Some? && children.value.List? then PreorderOfList(children.value.items) else [])
    + (if steps.Some? && steps.value.List? then PreorderOfList(steps.value.items) else [])
    + if one.Some? && one.value.Map? then Preorder(one.value) else []
  }

  function PreorderOfList(items: seq<Node>): seq<Step>
    decreases items, 3
  {
    if items == [] then []
    else (if items[0].Map? then Preorder(items[0]) else []) + PreorderOfList(items[1..])
  }

  /** Everything is kept; only a missing id is replaced, and by one that is not blank. */
  ghost predicate Carried(raw: Step, out: Step) {
    out.id != "" && out == raw.(id := if raw.id != "" then raw.id else out.id)
  }

  ghost predicate AllCarried(raw: seq<Step>, out: seq<Step>) {
    |raw| == |out| && forall k :: 0 <= k < |raw| ==> Carried(raw[k], out[k])
  }

  lemma PreorderOfCons(node: Node, rest: seq<Node>)
    ensures PreorderOfList([node] + rest) == (if node.Map? then Preorder(node) else []) + PreorderOfList(rest)
  {
    assert ([node] + rest)[1..] == rest;
  }

  lemma {:induction false} PreorderOfAppend(a: seq<Node>, b: seq<Node>)
    ensures PreorderOfList(a + b) == PreorderOfList(a) + PreorderOfList(b)
  {
    if a == [] {
      assert a + b == b;
    } else {
      var (node, rest) := (a[0], a[1..]);
      assert a == [node] + rest && a + b == [node] + (rest + b);
      PreorderOfAppend(rest, b);
      PreorderOfCons(node, rest);
      PreorderOfCons(node, rest + b);
    }
  }

  lemma PreorderOfOne(node: Node)
    requires node.Map?
    ensures PreorderOfList([node]) == Preorder(node)
  {
    PreorderOfCons(node, []);
    assert [node] + [] == [node];
  }

  lemma DeclaredIsRead(step: Node, fallbackId: string)
    requires step.Map?
    ensures ReadStep(step, fallbackId).(children := []) == Declared(step).(id := StepId(step, fallbackId))
  {
  }

  lemma EmittedPreorderBelow(s: Step)
    ensures PreorderBelow(Emit(s)) == PreorderOfList(s.children)
  {
    StepNamesAreDistinct();
    EmittedLists(s);
    EmittedNothingElse(s, "steps");
    EmittedNothingElse(s, "step");
    assert PreorderOfList(s.children) + [] + [] == PreorderOfList(s.children);
  }

  lemma EmittedPreorder(s: Step)
    requires CleanStep(s)
    ensures Preorder(Emit(s)) == [s.(children := [])] + PreorderOfList(s.children)
  {
    EmittedPreorderBelow(s);
    StepReadsBack(s, "x");
    DeclaredIsRead(Emit(s), "x");
    HeaderReadsBack(s);
  }

  lemma CleanRead(step: Node, fallbackId: string)
    requires step.Map? && KeepsItsId(step, fallbackId)
    ensures CleanStep(ReadStep(step, fallbackId))
  {
    HeaderIsClean(step, fallbackId);
    NormalizedChildrenAreStable(step, StepId(step, fallbackId));
    ReadStepIsClean(step, fallbackId);
  }

  lemma NormalizedPreorder(step: Node, fallbackId: string)
    requires step.Map? && KeepsItsId(step, fallbackId)
    ensures Preorder(NormalizeStep(step, fallbackId))
         == [Declared(step).(id := StepId(step, fallbackId))]
          + PreorderOfList(NormalizeChildren(step, StepId(step, fallbackId)))
  {
    CleanRead(step, fallbackId);
    EmittedPreorder(ReadStep(step, fallbackId));
    DeclaredIsRead(step, fallbackId);
  }

  lemma CarryOne(raw: Step, id: string)
    requires id != "" && (raw.id != "" ==> id == raw.id)
    ensures AllCarried([raw], [raw.(id := id)])
  {
    assert Carried(raw, raw.(id := id));
  }

  lemma CarryPreorder(step: Node, raw: Step, id: string, below: seq<Step>)
    requires step.Map? && raw == Declared(step) && id != "" && (raw.id != "" ==> id == raw.id)
    requires AllCarried(PreorderBelow(step), below)
    ensures AllCarried(Preorder(step), [raw.(id := id)] + below)
  {
    CarryOne(raw, id);
    CarriedAppend([raw], PreorderBelow(step), [raw.(id := id)], below);
  }

  /**
   Every mapping that the raw tree reaches through `children`, `steps` or `step` gives exactly one step of the
   output, in document order, with everything it declared.
   */
  lemma {:induction false} StepsAreConserved(step: Node, fallbackId: string)
    requires step.Map? && KeepsItsId(step, fallbackId)
    ensures AllCarried(Preorder(step), Preorder(NormalizeStep(step, fallbackId)))
    decreases step, 2
  {
    var id := StepId(step, fallbackId);
    HeaderIsClean(step, fallbackId);
    StepsBelowAreConserved(step, id);
    NormalizedPreorder(step, fallbackId);
    CarryPreorder(step, Declared(step), id, PreorderOfList(NormalizeChildren(step, id)));
  }

  lemma {:induction false} StepsBelowAreConserved(step: Node, id: string)
    requires step.Map? && id != "" && Stripped(id)
    ensures AllCarried(PreorderBelow(step), PreorderOfList(NormalizeChildren(step, id)))
    decreases step, 1
  {
    var (rawA, rawB, rawC) :=
      (PreorderOfList(ListAt(step, "children")), PreorderOfList(ListAt(step, "steps")), PreorderOfList(OneAt(step)));
    var a := NormalizeList(ListAt(step, "children"), id + "_children_", 1);
    var b := NormalizeList(ListAt(step, "steps"), id + "_steps_", 1);
    var c := NormalizedOne(step, id);
    ListPartIsConserved(step, "children", id, "_children_");
    ListPartIsConserved(step, "steps", id, "_steps_");
    OnePartIsConserved(step, id);
    PreorderOfAppend(a + b, c);
    PreorderOfAppend(a, b);
    CarriedAppend(rawA, rawB, PreorderOfList(a), PreorderOfList(b));
    CarriedAppend(rawA + rawB, rawC, PreorderOfList(a) + PreorderOfList(b), PreorderOfList(c));
    PartsBelow(step, id);
  }

  /** The mapping under `step`, if there is one. */
  function OneAt(step: Node): seq<Node> {
    var one := Get(step, "step");
    if one.Some? && one.value.Map? then [one.value] else []
  }

  function NormalizedOne(step: Node, id: string): seq<Node> {
    if OneAt(step) == [] then [] else [NormalizeStep(OneAt(step)[0], id + "_step")]
  }

  lemma PartsBelow(step: Node, id: string)
    requires step.Map?
    ensures NormalizeChildren(step, id) == NormalizeList(ListAt(step, "children"), id + "_children_", 1)
      + NormalizeList(ListAt(step, "steps"), id + "_steps_", 1) + NormalizedOne(step, id)
    ensures PreorderBelow(step)
         == PreorderOfList(ListAt(step, "children")) + PreorderOfList(ListAt(step, "steps")) + PreorderOfList(OneAt(step))
  {
    if OneAt(step) != [] {
      PreorderOfOne(OneAt(step)[0]);
    }
  }

  lemma {:induction false} ListPartIsConserved(step: Node, name: string, id: string, middle: string)
    requires step.Map? && id != "" && Stripped(id)
    ensures AllCarried(PreorderOfList(ListAt(step, name)), PreorderOfList(NormalizeList(ListAt(step, name), id + middle, 1)))
    decreases step, 0
  {
    var list := Get(step, name);
    if list.Some? && list.value.List? {
      ListIsConserved(list.value.items, id, middle, 1);
    }
  }

  lemma {:induction false} OnePartIsConserved(step: Node, id: string)
    requires step.Map? && id != "" && Stripped(id)
    ensures AllCarried(PreorderOfList(OneAt(step)), PreorderOfList(NormalizedOne(step, id)))
    decreases step, 0
  {
    var one := Get(step, "step");
    if one.Some? && one.value.Map? {
      StepsAreConserved(one.value, id + "_step");
      PreorderOfOne(one.value);
      PreorderOfOne(NormalizeStep(one.value, id + "_step"));
    }
  }

  lemma CarriedAppend(rawA: seq<Step>, rawB: seq<Step>, a: seq<Step>, b: seq<Step>)
    requires AllCarried(rawA, a) && AllCarried(rawB, b)
    ensures AllCarried(rawA + rawB, a + b)
  {
  }

  lemma {:induction false} ListIsConserved(items: seq<Node>, id: string, middle: string, index: nat)
    requires id != "" && Stripped(id)
    ensures AllCarried(PreorderOfList(items), PreorderOfList(NormalizeList(items, id + middle, index)))
    decreases items, 3
  {
    if items != [] {
      ListIsConserved(items[1..], id, middle, index + 1);
      var fallbackId := id + middle + Decimal(index);
      var head := if items[0].Map? then [NormalizeStep(items[0], fallbackId)] else [];
      var raw := if items[0].Map? then Preorder(items[0]) else [];
      var rest := NormalizeList(items[1..], id + middle, index + 1);
      if items[0].Map? {
        ChildIdIsStripped(id, middle, index);
        StepsAreConserved(items[0], fallbackId);
        PreorderOfOne(head[0]);
      }
      PreorderOfAppend(head, rest);
      CarriedAppend(raw, PreorderOfList(items[1..]), PreorderOfList(head), PreorderOfList(rest));
      assert NormalizeList(items, id + middle, index) == head + rest;
    }
  }
}
