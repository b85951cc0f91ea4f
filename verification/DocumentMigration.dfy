/** The whole document: every role that a normalized step targets exists, and when a second pass is idle. */
module DocumentMigration {
  import opened Text
  import opened Yaml
  import opened StepMigration
  import opened RoleMigration
  import opened WorkflowMigration
  import StepMigrator

  datatype Workflow = Workflow(
    name: string,
    description: string,
    closedWorld: Option<bool>,
    roles: seq<Role>,
    steps: seq<Node>)

  /** `normalize_configuration` */
  function Configuration(raw: Node): Option<bool> {
    var value := GetOr(raw, "closed_world_mode", Null);
    match value
    case Bool(b) => Some(b)
    case Str(s) =>
      var lowered := Lower(Strip(s));
      if lowered == "true" then Some(true) else if lowered == "false" then Some(false) else None
    case _ => None
  }

  /** The configuration is kept exactly when it is a boolean, or the text of one in any letter case. */
  lemma ConfigurationExactly(raw: Node, on: bool)
    ensures var value := GetOr(raw, "closed_world_mode", Null);
      Configuration(raw) == Some(on)
      <==> value == Bool(on) || (value.Str? && SameIgnoringCase(Strip(value.s), if on then "true" else "false"))
  {
    var value := GetOr(raw, "closed_world_mode", Null);
    if value.Str? {
      LowerIsCaseless(Strip(value.s), "true");
      LowerIsCaseless(Strip(value.s), "false");
      assert Lower("true") == "true" && Lower("false") == "false" && |"true"| != |"false"|;
    }
  }

  function WorkflowName(document: Node, stem: string): string {
    if TextAt(document, "name") != "" then TextAt(document, "name") else stem
  }

  /** Any order in which the collected names may be listed. */
  ghost predicate IsListing(names: seq<string>, collected: set<string>) {
    && (forall n :: n in names <==> n in collected)
    && forall i, j :: 0 <= i < j < |names| ==> names[i] != names[j]
  }

  /** `normalize_workflow`; a document that is not a mapping is an error. */
  ghost function Migrated(document: Node, stem: string, names: seq<string>): Option<Workflow> {
    if !document.Map? then None
    else
      Some(Workflow(
        WorkflowName(document, stem),
        TextAt(document, "description"),
        Configuration(GetOr(document, "configuration", Null)),
        NormalizeRoles(GetOr(document, "roles", Null), names),
        NormalizeList(ListAt(document, "steps"), "step_", 1)))
  }

  method ListNames(collected: set<string>) returns (names: seq<string>)
    ensures IsListing(names, collected)
  {
    names := [];
    var rest := collected;
    while rest != {}
      invariant rest <= collected
      invariant IsListing(names, collected - rest)
      decreases |rest|
    {
      var name :| name in rest;
      names := names + [name];
      rest := rest - {name};
    }
  }

  /** Returns the workflow and the order in which the collected names were listed. */
  method Migrate(document: Node, stem: string) returns (workflow: Option<Workflow>, names: seq<string>)
    ensures document.Map? ==> IsListing(names, CollectedFromList(ListAt(document, "steps")))
    ensures workflow == Migrated(document, stem, names)
  {
    names := [];
    if !document.Map? {
      return None, [];
    }
    var steps := ListAt(document, "steps");
    var collected := CollectFromList(steps, {});
    names := ListNames(collected);
    var roles := BuildRoles(GetOr(document, "roles", Null), names);
    var normalized := StepMigrator.MigrateList(steps, "step_");
    workflow := Some(Workflow(WorkflowName(document, stem), TextAt(document, "description"),
                              Configuration(GetOr(document, "configuration", Null)), roles, normalized));
  }

  // ---- Role closure ----

  ghost function LowerSet(names: set<string>): set<string> {
    set n | n in names :: Lower(n)
  }

  /** Exactly one role has this id, up to case. */
  ghost predicate HasOneRole(roles: seq<Role>, id: string) {
    exists i :: 0 <= i < |roles| && Lower(roles[i].id) == Lower(id)
      && forall j :: 0 <= j < |roles| && Lower(roles[j].id) == Lower(id) ==> j == i
  }

  /** Every role that a step targets, anywhere in the tree, is one of the roles, and only one. */
  ghost predicate Closed(w: Workflow) {
    var steps := PreorderOfList(w.steps);
    forall k :: 0 <= k < |steps| && steps[k].role != "" ==> HasOneRole(w.roles, steps[k].role)
  }

  lemma KeyHasOneRole(roles: seq<Role>, id: string)
    requires DistinctKeys(roles)
    ensures HasOneRole(roles, id) <==> Lower(id) in Keys(roles)
  {
    if Lower(id) in Keys(roles) {
      var i :| 0 <= i < |roles| && Lower(id) == KeyOf(roles[i]);
      forall j | 0 <= j < |roles| && Lower(roles[j].id) == Lower(id)
        ensures j == i
      {
      }
    }
  }

  lemma ListedKeys(names: seq<string>, collected: set<string>)
    requires IsListing(names, collected) && CleanNames(collected)
    ensures NameKeys(names) == LowerSet(collected)
  {
    var entries := Derivations(names);
    forall i | 0 <= i < |names|
      ensures names[i] in collected && entries[i].Some? && KeyOf(entries[i].value) == Lower(names[i])
    {
      assert names[i] in names;
      StripIsStripped(names[i]);
    }
    forall n | n in collected
      ensures Lower(n) in NameKeys(names)
    {
      assert n in names;
      var i :| 0 <= i < |names| && names[i] == n;
      assert KeyOf(entries[i].value) == Lower(n);
    }
  }

  /** The normalized steps target what the raw steps do. */
  lemma SameTargets(items: seq<Node>)
    ensures RolesIn(PreorderOfList(NormalizeList(items, "step_", 1))) == RolesIn(PreorderOfList(items))
  {
    var (raw, out) := (PreorderOfList(items), PreorderOfList(NormalizeList(items, "step_", 1)));
    assert "step" + "_" == "step_" && Stripped("step");
    ListIsConserved(items, "step", "_", 1);
    assert forall k :: 0 <= k < |raw| ==> Carried(raw[k], out[k]) && raw[k].role == out[k].role;
  }

  /** The keys of the roles: the declared ones and the collected ones. */
  lemma RoleKeys(document: Node, stem: string, names: seq<string>)
    requires document.Map? && IsListing(names, CollectedFromList(ListAt(document, "steps")))
    ensures var roles := Migrated(document, stem, names).value.roles;
            DistinctKeys(roles) && Keys(roles) == DeclaredKeys(RoleItems(GetOr(document, "roles", Null)))
                                                  + LowerSet(CollectedFromList(ListAt(document, "steps")))
  {
    RolesAre(GetOr(document, "roles", Null), names);
    CollectedListIsClean(ListAt(document, "steps"));
    ListedKeys(names, CollectedFromList(ListAt(document, "steps")));
  }

  /** Up to case, every role that the steps target is declared by a role entry. */
  ghost predicate TargetsCovered(document: Node) {
    forall role :: role in RolesIn(PreorderOfList(ListAt(document, "steps"))) ==>
      Lower(role) in DeclaredKeys(RoleItems(GetOr(document, "roles", Null)))
                     + LowerSet(CollectedFromList(ListAt(document, "steps")))
  }

  /** The result is closed exactly when every target role of the raw steps was declared or collected. */
  lemma ClosedExactly(document: Node, stem: string, names: seq<string>)
    requires document.Map? && IsListing(names, CollectedFromList(ListAt(document, "steps")))
    ensures Closed(Migrated(document, stem, names).value) <==> TargetsCovered(document)
  {
    var w := Migrated(document, stem, names).value;
    var steps := PreorderOfList(w.steps);
    RoleKeys(document, stem, names);
    SameTargets(ListAt(document, "steps"));
    assert RolesIn(steps) == RolesIn(PreorderOfList(ListAt(document, "steps")));
    forall k | 0 <= k < |steps|
      ensures HasOneRole(w.roles, steps[k].role) <==> Lower(steps[k].role) in Keys(w.roles)
    {
      KeyHasOneRole(w.roles, steps[k].role);
    }
    if Closed(w) {
      forall role | role in RolesIn(steps)
        ensures Lower(role) in Keys(w.roles)
      {
        var k :| 0 <= k < |steps| && steps[k].role != "" && steps[k].role == role;
      }
    } else {
      var k :| 0 <= k < |steps| && steps[k].role != "" && !HasOneRole(w.roles, steps[k].role);
      assert steps[k].role in RolesIn(steps);
    }
  }

  /**
   Role closure: when every role reference is a text or absent, each target role anywhere in the normalized
   steps equals, up to case, the id of exactly one normalized role.
   */
  lemma RoleClosure(document: Node, stem: string, names: seq<string>)
    requires document.Map? && IsListing(names, CollectedFromList(ListAt(document, "steps")))
    requires AllTextRefs(ListAt(document, "steps"))
    ensures Closed(Migrated(document, stem, names).value)
  {
    ClosedExactly(document, stem, names);
    TextRefsListIsCollected(ListAt(document, "steps"));
  }

  // ---- A reference that is not a text ----

  function OneField(name: string, value: Node): Node {
    Map([Field(Str(name), value)])
  }

  lemma GetOneField(name: string, value: Node, other: string)
    ensures Get(OneField(name, value), other) == if other == name then Some(value) else None
  {
    assert [Field(Str(name), value)][1..] == [];
  }

  /** A step that only says `target_role: 5`. */
  function NumberedStep(): Node {
    OneField("target_role", Int(5))
  }

  lemma NumberedStepParts(name: string)
    ensures Get(NumberedStep(), name) == if name == "target_role" then Some(Int(5)) else None
    ensures OwnRef(NumberedStep(), name) == {} && CollectedUnder(NumberedStep(), name) == {}
    ensures CollectedFromOne(NumberedStep(), name) == {}
  {
    GetOneField("target_role", Int(5), name);
  }

  lemma CollectsNothing(step: Node)
    requires step.Map?
    requires forall name: string :: OwnRef(step, name) == {} && CollectedUnder(step, name) == {} && CollectedFromOne(step, name) == {}
    ensures Collected(step) == {}
  {
  }

  lemma NumberedStepCollectsNothing()
    ensures CollectedFromList([NumberedStep()]) == {}
  {
    var step := NumberedStep();
    forall name: string
      ensures OwnRef(step, name) == {} && CollectedUnder(step, name) == {} && CollectedFromOne(step, name) == {}
    {
      NumberedStepParts(name);
    }
    CollectsNothing(step);
    CollectedFromSingle(step);
  }

  lemma NumberedStepTargets()
    ensures "5" in RolesIn(PreorderOfList([NumberedStep()]))
  {
    NumberedStepParts("target_role");
    StripIsStripped("5");
    assert ToString(Int(5)) == "5";
    assert TargetRole(NumberedStep()) == "5";
    PreorderOfOne(NumberedStep());
    RolesOfOne(NumberedStep(), PreorderBelow(NumberedStep()));
  }

  lemma NothingCovers(document: Node, role: string)
    requires GetOr(document, "roles", Null) == Null && CollectedFromList(ListAt(document, "steps")) == {}
    requires role in RolesIn(PreorderOfList(ListAt(document, "steps")))
    ensures !TargetsCovered(document)
  {
    assert DeclaredKeys([]) == {} && LowerSet({}) == {};
  }

  lemma NumberedStepIsDangling(document: Node, stem: string)
    requires document.Map? && ListAt(document, "steps") == [NumberedStep()] && GetOr(document, "roles", Null) == Null
    ensures IsListing([], CollectedFromList(ListAt(document, "steps"))) && !Closed(Migrated(document, stem, []).value)
  {
    NumberedStepCollectsNothing();
    NumberedStepTargets();
    NothingCovers(document, "5");
    ClosedExactly(document, stem, []);
  }

  /** A role reference that is a number is written out as a text, but no role is made up for it. */
  lemma NumberedRoleIsDangling(stem: string)
    ensures exists document: Node :: document.Map?
              && IsListing([], CollectedFromList(ListAt(document, "steps"))) && !Closed(Migrated(document, stem, []).value)
  {
    var document := OneField("steps", List([NumberedStep()]));
    GetOneField("steps", List([NumberedStep()]), "steps");
    GetOneField("steps", List([NumberedStep()]), "roles");
    assert "roles" != "steps" by { assert "roles"[0] != "steps"[0]; }
    NumberedStepIsDangling(document, stem);
  }
}
