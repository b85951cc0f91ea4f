/** The loops that build a normalized step, each proved against the function that says what it builds. */
module StepMigrator {
  import opened Text
  import opened Yaml
  import opened StepMigration

  method ReadBranches(raw: Node) returns (out: seq<Field>)
    ensures out == NormalizeBranches(raw)
  {
    out := [];
    if raw.Map? {
      for i := 0 to |raw.fields|
        invariant out == BranchesOfFields(raw.fields[..i])
      {
        assert raw.fields[..i + 1] == raw.fields[..i] + [raw.fields[i]];
        var key := Strip(ToString(raw.fields[i].key));
        if key != "" {
          var value := raw.fields[i].value;
          var target := "";
          if value.Map? {
            target := Strip(ToString(ReadMappingValue(value, ["next", "to", "target", "step"])));
          } else {
            target := Strip(ToString(value));
          }
          if target != "" {
            out := Put(out, key, Str(target));
          }
        }
      }
      assert raw.fields[..|raw.fields|] == raw.fields;
    } else if raw.List? {
      for i := 0 to |raw.items|
        invariant out == BranchesOfItems(raw.items[..i])
      {
        assert raw.items[..i + 1] == raw.items[..i] + [raw.items[i]];
        if raw.items[i].Map? {
          var key := Strip(ToString(ReadMappingValue(raw.items[i], ["condition", "when", "case", "label", "if"])));
          var target := Strip(ToString(ReadMappingValue(raw.items[i], ["next", "to", "target", "step"])));
          if key != "" && target != "" {
            out := Put(out, key, Str(target));
          }
        }
      }
      assert raw.items[..|raw.items|] == raw.items;
    }
  }

  method AddRawParameters(raw: Node) returns (parameters: seq<Field>)
    ensures parameters == AddParameters([], if raw.Map? then raw.fields else [])
  {
    parameters := [];
    var fields := if raw.Map? then raw.fields else [];
    for i := 0 to |fields|
      invariant parameters == AddParameters([], fields[..i])
    {
      assert fields[..i + 1] == fields[..i] + [fields[i]];
      var key := Strip(ToString(fields[i].key));
      if key != "" {
        parameters := Put(parameters, key, Str(ToString(fields[i].value)));
      }
    }
    assert fields[..|fields|] == fields;
  }

  lemma AddLegacyField(above: seq<Field>, fields: seq<Field>, i: nat)
    requires i < |fields|
    ensures AddParameters(above, LegacyFields(fields[..i + 1]))
         == var before := AddParameters(above, LegacyFields(fields[..i]));
            if IsStructural(fields[i].key) || fields[i].value.Null? then before else AddParameter(before, fields[i])
  {
    assert fields[..i + 1][..i] == fields[..i];
    var (before, here) := (LegacyFields(fields[..i]), LegacyFields(fields[..i + 1]));
    if !IsStructural(fields[i].key) && !fields[i].value.Null? {
      assert here == before + [fields[i]] && here[..|here| - 1] == before;
    } else {
      assert here == before;
    }
  }

  method AddLegacyFields(above: seq<Field>, fields: seq<Field>) returns (parameters: seq<Field>)
    ensures parameters == AddParameters(above, LegacyFields(fields))
  {
    parameters := above;
    for i := 0 to |fields|
      invariant parameters == AddParameters(above, LegacyFields(fields[..i]))
    {
      AddLegacyField(above, fields, i);
      if !IsStructural(fields[i].key) && !fields[i].value.Null? {
        var key := Strip(ToString(fields[i].key));
        if key != "" {
          parameters := Put(parameters, key, Str(ToString(fields[i].value)));
        }
      }
    }
    assert fields[..|fields|] == fields;
  }

  lemma {:induction false} AddParametersAppend(out: seq<Field>, a: seq<Field>, b: seq<Field>)
    ensures AddParameters(out, a + b) == AddParameters(AddParameters(out, a), b)
    decreases |b|
  {
    if b == [] {
      assert a + b == a;
    } else {
      assert (a + b)[..|a + b| - 1] == a + b[..|b| - 1];
      AddParametersAppend(out, a, b[..|b| - 1]);
    }
  }

  method CollectParameters(step: Node) returns (parameters: seq<Field>)
    requires step.Map?
    ensures parameters == RawParameters(step)
  {
    var raw := GetOr(step, "parameters", Null);
    parameters := AddRawParameters(raw);
    parameters := AddLegacyFields(parameters, step.fields);
    AddParametersAppend([], if raw.Map? then raw.fields else [], LegacyFields(step.fields));
  }

  /** `if value: out[key] = value` */
  function PutIfAny(out: seq<Field>, key: string, value: Option<Node>): seq<Field> {
    if value.Some? then Put(out, key, value.value) else out
  }

  lemma {:induction false} PresentAppend(names: seq<string>, values: seq<Option<Node>>, name: string, value: Option<Node>)
    requires |names| == |values|
    ensures Present(names + [name], values + [value])
         == Present(names, values) + if value.Some? then [Field(Str(name), value.value)] else []
  {
    if names == [] {
      assert names + [name] == [name] && values + [value] == [value];
    } else {
      assert (names + [name])[1..] == names[1..] + [name] && (values + [value])[1..] == values[1..] + [value];
      PresentAppend(names[1..], values[1..], name, value);
    }
  }

  /** Writing one more field of a dict whose names are written in order, each once. */
  lemma WriteNext(names: seq<string>, values: seq<Option<Node>>, k: nat)
    requires |names| == |values| && k < |names| && Distinct(names)
    ensures PutIfAny(Present(names[..k], values[..k]), names[k], values[k]) == Present(names[..k + 1], values[..k + 1])
  {
    var out := Present(names[..k], values[..k]);
    assert names[..k + 1] == names[..k] + [names[k]] && values[..k + 1] == values[..k] + [values[k]];
    PresentAppend(names[..k], values[..k], names[k], values[k]);
    if values[k].Some? {
      forall i | 0 <= i < |out|
        ensures out[i].key != Str(names[k])
      {
        PresentKeys(names[..k], values[..k], i);
      }
      PutNew(out, names[k], values[k].value);
    }
  }

  /** What the first `k` assignments have written of the step. */
  ghost function WrittenSoFar(s: Step, k: nat): seq<Field>
    requires k <= 10
  {
    Present(STEP_NAMES[..k], StepValues(s)[..k])
  }

  lemma Written10(s: Step)
    ensures Map(WrittenSoFar(s, 10)) == Emit(s)
  {
    assert STEP_NAMES[..10] == STEP_NAMES && StepValues(s)[..10] == StepValues(s);
  }

  method WriteField(fields: seq<Field>, key: string, value: Option<Node>, ghost s: Step, ghost k: nat)
    returns (out: seq<Field>)
    requires k < 10 && key == STEP_NAMES[k] && value == StepValues(s)[k] && fields == WrittenSoFar(s, k)
    ensures out == WrittenSoFar(s, k + 1)
  {
    StepNamesAreDistinct();
    WriteNext(STEP_NAMES, StepValues(s), k);
    out := fields;
    if value.Some? {
      out := Put(fields, key, value.value);
    }
  }

  /** The fields up to `next`. */
  method WriteHeader(s: Step) returns (fields: seq<Field>)
    ensures fields == WrittenSoFar(s, 4)
  {
    ghost var k := 0;
    fields := WriteField([], "id", Some(Str(s.id)), s, k);
    fields := WriteField(fields, "type", Some(Str(s.kind)), s, k + 1);
    fields := WriteField(fields, "target_role", NonBlank(s.role), s, k + 2);
    fields := WriteField(fields, "next", NonBlank(s.next), s, k + 3);
  }

  /** The fields up to `on_error`. */
  method WriteHead(s: Step) returns (fields: seq<Field>)
    ensures fields == WrittenSoFar(s, 7)
  {
    ghost var k := 4;
    fields := WriteHeader(s);
    fields := WriteField(fields, "branches", Dict(s.branches), s, k);
    fields := WriteField(fields, "retry", Dict(Present(RETRY_NAMES, RetryValues(s.retry))), s, k + 1);
    fields := WriteField(fields, "on_error", Dict(Present(ON_ERROR_NAMES, OnErrorValues(s.onError))), s, k + 2);
  }

  method WriteStep(s: Step) returns (out: Node)
    ensures out == Emit(s)
  {
    ghost var k := 7;
    var fields := WriteHead(s);
    fields := WriteField(fields, "timeout_ms", Number(s.timeoutMs), s, k);
    fields := WriteField(fields, "children", if s.children == [] then None else Some(List(s.children)), s, k + 1);
    fields := WriteField(fields, "parameters", Dict(s.parameters), s, k + 2);
    Written10(s);
    out := Map(fields);
  }

  method MigrateStep(step: Node, fallbackId: string) returns (out: Node)
    requires step.Map?
    ensures out == NormalizeStep(step, fallbackId)
    decreases step, 2
  {
    var id := TextAt(step, "id");
    if id == "" {
      id := fallbackId;
    }
    var kind := TextAt(step, "type");
    if kind == "" {
      kind := DEFAULT_TYPE;
    }
    var role := "";
    for i := 0 to 3
      invariant role == if i == 0 then "" else if i == 1 then TextAt(step, "target_role")
                        else if i == 2 then FirstNonBlank(TextAt(step, "target_role"), TextAt(step, "role"), "")
                        else TargetRole(step)
    {
      if role == "" {
        role := TextAt(step, ["target_role", "role", "agent"][i]);
      }
    }
    var parameters := CollectParameters(step);
    var branches := ReadBranches(GetOr(step, "branches", Null));
    var children := MigrateChildren(step, id);
    var s := Step(id, kind, role, TextAt(step, "next"), branches, NormalizeRetry(GetOr(step, "retry", Null)),
                  NormalizeOnError(GetOr(step, "on_error", Null)), IntLike(GetOr(step, "timeout_ms", Null)),
                  children, parameters);
    assert s == ReadStep(step, fallbackId);
    out := WriteStep(s);
  }

  method MigrateChildren(step: Node, id: string) returns (children: seq<Node>)
    requires step.Map?
    ensures children == NormalizeChildren(step, id)
    decreases step, 1
  {
    children := MigrateListAt(step, "children", id + "_children_");
    var steps := MigrateListAt(step, "steps", id + "_steps_");
    children := children + steps;
    var below := Get(step, "step");
    if below.Some? && below.value.Map? {
      var one := MigrateStep(below.value, id + "_step");
      children := children + [one];
    }
    PartsBelow(step, id);
  }

  method MigrateListAt(step: Node, name: string, prefix: string) returns (out: seq<Node>)
    ensures out == NormalizeList(ListAt(step, name), prefix, 1)
    decreases step, 0
  {
    out := [];
    var value := Get(step, name);
    if value.Some? && value.value.List? {
      out := MigrateList(value.value.items, prefix);
    }
  }

  /** The list that goes on from what was written already. */
  ghost function Continue(out: seq<Node>, items: seq<Node>, prefix: string, i: nat): seq<Node>
    requires i <= |items|
    decreases |items| - i
  {
    if i == |items| then out
    else Continue(out + (if items[i].Map? then [NormalizeStep(items[i], prefix + Decimal(i + 1))] else []), items, prefix, i + 1)
  }

  lemma Associate(a: seq<Node>, b: seq<Node>, c: seq<Node>)
    ensures (a + b) + c == a + (b + c)
  {
  }

  lemma {:induction false} ContinueIs(out: seq<Node>, items: seq<Node>, prefix: string, i: nat)
    requires i <= |items|
    ensures Continue(out, items, prefix, i) == out + NormalizeList(items[i..], prefix, i + 1)
    decreases |items| - i
  {
    if i == |items| {
      assert items[i..] == [];
    } else {
      var here := if items[i].Map? then [NormalizeStep(items[i], prefix + Decimal(i + 1))] else [];
      ContinueIs(out + here, items, prefix, i + 1);
      assert items[i..][0] == items[i] && items[i..][1..] == items[i + 1..];
      Associate(out, here, NormalizeList(items[i + 1..], prefix, i + 2));
    }
  }

  method MigrateList(items: seq<Node>, prefix: string) returns (out: seq<Node>)
    ensures out == NormalizeList(items, prefix, 1)
    decreases items, 3
  {
    ContinueIs([], items, prefix, 0);
    assert items[0..] == items;
    out := [];
    for i := 0 to |items|
      invariant Continue(out, items, prefix, i) == NormalizeList(items, prefix, 1)
    {
      if items[i].Map? {
        var one := MigrateStep(items[i], prefix + Decimal(i + 1));
        out := out + [one];
      } else {
        assert out + [] == out;
      }
    }
  }
}
