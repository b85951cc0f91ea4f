/** Migrating a migrated document again: exactly when nothing changes. */
module SecondPass {
  import opened Text
  import opened Yaml
  import opened StepMigration
  import opened RoleMigration
  import opened WorkflowMigration
  import opened DocumentMigration

  // ---- Writing the document ----

  const DOCUMENT_NAMES := ["name", "description", "configuration", "roles", "steps"]

  ghost predicate WholeRoles(roles: seq<Role>) {
    forall i :: 0 <= i < |roles| ==> CleanRole(roles[i])
  }

  ghost function EmitRoles(roles: seq<Role>): (nodes: seq<Node>)
    requires WholeRoles(roles)
    ensures |nodes| == |roles|
  {
    seq(|roles|, i requires 0 <= i < |roles| => EmitRole(roles[i]))
  }

  function EmitConfiguration(closedWorld: Option<bool>): Option<Node> {
    if closedWorld.None? then None else Some(OneField("closed_world_mode", Bool(closedWorld.value)))
  }

  ghost function EmitWorkflow(w: Workflow): Node
    requires WholeRoles(w.roles)
  {
    Map(Present(DOCUMENT_NAMES, DocumentValues(w)))
  }

  ghost function DocumentValues(w: Workflow): (values: seq<Option<Node>>)
    requires WholeRoles(w.roles)
    ensures |values| == 5
  {
    [Some(Str(w.name)), NonBlank(w.description), EmitConfiguration(w.closedWorld), Some(List(EmitRoles(w.roles))),
     Some(List(w.steps))]
  }

  lemma EmittedDocumentAt(w: Workflow, i: nat)
    requires WholeRoles(w.roles) && i < 5
    ensures Get(EmitWorkflow(w), DOCUMENT_NAMES[i]) == DocumentValues(w)[i]
  {
    assert "name"[0] == 'n' && "description"[0] == 'd' && "configuration"[0] == 'c' && "roles"[0] == 'r' && "steps"[0] == 's';
    GetPresent(DOCUMENT_NAMES, DocumentValues(w), i);
  }

  lemma EmittedDocument(w: Workflow)
    requires WholeRoles(w.roles)
    ensures Get(EmitWorkflow(w), "name") == Some(Str(w.name))
    ensures Get(EmitWorkflow(w), "description") == NonBlank(w.description)
    ensures Get(EmitWorkflow(w), "configuration") == EmitConfiguration(w.closedWorld)
    ensures GetOr(EmitWorkflow(w), "roles", Null) == List(EmitRoles(w.roles))
    ensures ListAt(EmitWorkflow(w), "steps") == w.steps
  {
    EmittedDocumentAt(w, 0);
    EmittedDocumentAt(w, 1);
    EmittedDocumentAt(w, 2);
    EmittedDocumentAt(w, 3);
    EmittedDocumentAt(w, 4);
  }

  lemma ConfigurationReadsBack(closedWorld: Option<bool>)
    ensures var node := EmitConfiguration(closedWorld); Configuration(if node.Some? then node.value else Null) == closedWorld
  {
    if closedWorld.Some? {
      GetOneField("closed_world_mode", Bool(closedWorld.value), "closed_world_mode");
    }
  }

  // ---- Reading the roles again ----

  ghost function Again(role: Role): Role
    requires CleanRole(role)
  {
    RoleReadsBack(role);
    NormalizeRole(EmitRole(role)).value
  }

  ghost function AllAgain(roles: seq<Role>): (again: seq<Role>)
    requires WholeRoles(roles)
    ensures |again| == |roles|
  {
    seq(|roles|, i requires 0 <= i < |roles| => Again(roles[i]))
  }

  lemma AgainIsRead(role: Role)
    requires CleanRole(role)
    ensures NormalizeRole(EmitRole(role)) == Some(Again(role)) && Again(role).id == role.id && CleanRole(Again(role))
  {
    RoleReadsBack(role);
    NormalizedRoleIsClean(EmitRole(role));
  }

  lemma AgainKeepsKeys(roles: seq<Role>)
    requires WholeRoles(roles)
    ensures Keys(AllAgain(roles)) == Keys(roles) && WholeRoles(AllAgain(roles))
  {
    forall i | 0 <= i < |roles|
      ensures KeyOf(AllAgain(roles)[i]) == KeyOf(roles[i]) && CleanRole(AllAgain(roles)[i])
    {
      AgainIsRead(roles[i]);
    }
    forall key | key in Keys(roles)
      ensures key in Keys(AllAgain(roles))
    {
      var i :| 0 <= i < |roles| && key == KeyOf(roles[i]);
      assert KeyOf(AllAgain(roles)[i]) == key;
    }
  }

  /** Roles with distinct ids are all read back, in order. */
  lemma DeclaredAgain(roles: seq<Role>)
    requires WholeRoles(roles) && DistinctKeys(roles)
    ensures DeclaredRoles(EmitRoles(roles)) == AllAgain(roles)
  {
    var entries := Declarations(EmitRoles(roles));
    forall i | 0 <= i < |roles|
      ensures entries[i] == Some(Again(roles[i])) && KeyOf(entries[i].value) == KeyOf(roles[i])
    {
      AgainIsRead(roles[i]);
    }
    AllAdded(entries, |entries|);
  }

  /** No role has an optional field that a second pass drops. */
  ghost predicate AllKeepExtras(roles: seq<Role>)
    requires WholeRoles(roles)
  {
    forall i :: 0 <= i < |roles| ==> KeepsExtras(roles[i])
  }

  lemma AgainIsSameExactly(roles: seq<Role>)
    requires WholeRoles(roles)
    ensures AllAgain(roles) == roles <==> AllKeepExtras(roles)
  {
    forall i | 0 <= i < |roles|
      ensures AllAgain(roles)[i] == roles[i] <==> KeepsExtras(roles[i])
    {
      RoleReadsBack(roles[i]);
    }
    if AllAgain(roles) == roles {
      forall i | 0 <= i < |roles|
        ensures KeepsExtras(roles[i])
      {
        assert AllAgain(roles)[i] == roles[i];
      }
    }
  }

  // ---- Which roles are made up ----

  lemma DeclaredRoleKeepsExtras(items: seq<Node>, i: nat)
    requires i < |DeclaredRoles(items)|
    ensures var role := DeclaredRoles(items)[i]; CleanRole(role) && KeepsExtras(role)
  {
    var entries := Declarations(items);
    AddFirstAppends([], entries, |entries|);
    var j :| 0 <= j < |entries| && entries[j] == Some(DeclaredRoles(items)[i]);
    NormalizedRoleIsClean(items[j]);
    NormalizedRoleKeepsExtras(items[j]);
  }

  lemma DeclaredRolesKeepExtras(items: seq<Node>)
    ensures WholeRoles(DeclaredRoles(items)) && AllKeepExtras(DeclaredRoles(items))
  {
    forall i | 0 <= i < |DeclaredRoles(items)|
      ensures var role := DeclaredRoles(items)[i]; CleanRole(role) && KeepsExtras(role)
    {
      DeclaredRoleKeepsExtras(items, i);
    }
  }

  lemma DerivedRoleIs(name: string)
    requires name != "" && Stripped(name)
    ensures Derivation(name) == Some(DerivedRole(name))
    ensures CleanRole(DerivedRole(name)) && !KeepsExtras(DerivedRole(name)) && KeyOf(DerivedRole(name)) == Lower(name)
  {
    StripIsStripped(name);
    TitleIsClean(name);
    DerivedRoleIsUnstable(name);
  }

  ghost predicate AllCleanNames(names: seq<string>) {
    forall i :: 0 <= i < |names| ==> names[i] != "" && Stripped(names[i])
  }

  /** Made-up roles come after the declared ones, and none of them is read back as it was. */
  lemma DerivedAtTheEnd(roles: seq<Role>, names: seq<string>, i: nat)
    requires AllCleanNames(names) && |roles| <= i < |AddAll(roles, Derivations(names))|
    ensures var role := AddAll(roles, Derivations(names))[i]; CleanRole(role) && !KeepsExtras(role)
  {
    var entries := Derivations(names);
    AddFirstAppends(roles, entries, |entries|);
    var j :| 0 <= j < |entries| && entries[j] == Some(AddAll(roles, entries)[i]);
    DerivedRoleIs(names[j]);
  }

  /** A migrated document keeps its roles on a second reading exactly when none was made up. */
  lemma RolesAreStableExactly(items: seq<Node>, names: seq<string>)
    requires AllCleanNames(names)
    ensures var roles := AddAll(DeclaredRoles(items), Derivations(names));
            WholeRoles(roles) && (AllKeepExtras(roles) <==> NameKeys(names) <= DeclaredKeys(items))
  {
    var (declared, entries) := (DeclaredRoles(items), Derivations(names));
    var roles := AddAll(declared, entries);
    DeclaredRolesKeepExtras(items);
    AddFirstIs([], Declarations(items), |items|);
    AddFirstAppends(declared, entries, |entries|);
    NoneAddedExactly(declared, entries, |entries|);
    forall i | 0 <= i < |roles|
      ensures CleanRole(roles[i]) && (KeepsExtras(roles[i]) <==> i < |declared|)
    {
      if i < |declared| {
        assert roles[i] == declared[i];
      } else {
        DerivedAtTheEnd(declared, names, i);
      }
    }
    if |roles| == |declared| {
      assert roles == declared;
    } else {
      assert !KeepsExtras(roles[|declared|]);
    }
  }

  /** What a second pass makes of roles that were written out. */
  lemma SecondRolesAreSameExactly(roles: seq<Role>, names: seq<string>)
    requires WholeRoles(roles) && DistinctKeys(roles)
    ensures NormalizeRoles(List(EmitRoles(roles)), names) == roles
       <==> AllKeepExtras(roles) && NameKeys(names) <= Keys(roles)
  {
    DeclaredAgain(roles);
    AgainKeepsKeys(roles);
    AgainIsSameExactly(roles);
    var (again, entries) := (AllAgain(roles), Derivations(names));
    AddFirstAppends(again, entries, |entries|);
    NoneAddedExactly(again, entries, |entries|);
    if AddAll(again, entries) == roles {
      assert again == roles;
    }
  }

  // ---- The document ----

  ghost predicate KeepsItsName(document: Node, stem: string) {
    TextAt(document, "name") != "" || (stem != "" && Stripped(stem))
  }

  /** Every role that a step names, or that a normalized step targets, has a role entry of its own. */
  ghost predicate EveryRoleDeclared(document: Node) {
    var (items, steps) := (RoleItems(GetOr(document, "roles", Null)), ListAt(document, "steps"));
    && LowerSet(CollectedFromList(steps)) <= DeclaredKeys(items)
    && LowerSet(RolesIn(PreorderOfList(steps))) <= DeclaredKeys(items)
  }

  lemma ListedNamesAreClean(names: seq<string>, collected: set<string>)
    requires IsListing(names, collected) && CleanNames(collected)
    ensures AllCleanNames(names)
  {
    forall i | 0 <= i < |names|
      ensures names[i] != "" && Stripped(names[i])
    {
      assert names[i] in names;
    }
  }

  lemma MigratedRoles(document: Node, stem: string, names: seq<string>)
    requires document.Map? && IsListing(names, CollectedFromList(ListAt(document, "steps")))
    ensures var roles := Migrated(document, stem, names).value.roles;
      && WholeRoles(roles) && DistinctKeys(roles)
      && (AllKeepExtras(roles) <==>
            LowerSet(CollectedFromList(ListAt(document, "steps"))) <= DeclaredKeys(RoleItems(GetOr(document, "roles", Null))))
  {
    RoleKeys(document, stem, names);
    CollectedListIsClean(ListAt(document, "steps"));
    ListedNamesAreClean(names, CollectedFromList(ListAt(document, "steps")));
    ListedKeys(names, CollectedFromList(ListAt(document, "steps")));
    RolesAreStableExactly(RoleItems(GetOr(document, "roles", Null)), names);
  }

  lemma StepsReadBack(items: seq<Node>)
    ensures var steps := NormalizeList(items, "step_", 1);
            NormalizeList(steps, "step_", 1) == steps && CollectedFromList(steps) == RolesIn(PreorderOfList(items))
  {
    assert "step" + "_" == "step_" && Stripped("step");
    NormalizedListIsStable(items, "step", "_", 1);
    StableListReadsBack(NormalizeList(items, "step_", 1), "step_", 1);
    CollectedListAgain(items, "step_", 1);
  }

  /** The parts of the second result, compared with the first. */
  lemma SecondParts(w: Workflow, stem: string, names: seq<string>)
    requires WholeRoles(w.roles) && Stripped(w.description) && NormalizeList(w.steps, "step_", 1) == w.steps
    ensures EmitWorkflow(w).Map?
    ensures Migrated(EmitWorkflow(w), stem, names) == Some(w)
       <==> WorkflowName(EmitWorkflow(w), stem) == w.name && NormalizeRoles(List(EmitRoles(w.roles)), names) == w.roles
  {
    EmittedDocument(w);
    TextReadsBack(EmitWorkflow(w), "description", w.description);
    ConfigurationReadsBack(w.closedWorld);
  }

  lemma NameReadsBack(w: Workflow, stem: string)
    requires WholeRoles(w.roles)
    ensures w.name != "" && Stripped(w.name) ==> WorkflowName(EmitWorkflow(w), stem) == w.name
    ensures w.name == "" || !Stripped(w.name) ==> WorkflowName(EmitWorkflow(w), "x") != w.name
  {
    EmittedDocumentAt(w, 0);
    StripIsStripped(w.name);
  }

  lemma NameIsKeptExactly(document: Node, stem: string)
    ensures var name := WorkflowName(document, stem); KeepsItsName(document, stem) <==> name != "" && Stripped(name)
  {
    TextIsStripped(document, "name");
  }

  /** Whatever file it is written to and however its names are listed, migrating it again gives it back. */
  ghost predicate SecondPassIsIdle(w: Workflow)
    requires WholeRoles(w.roles)
  {
    forall stem, names :: IsListing(names, CollectedFromList(w.steps)) ==> Migrated(EmitWorkflow(w), stem, names) == Some(w)
  }

  /** The second pass in terms of the second listing alone. */
  lemma SecondPassWith(document: Node, stem: string, names: seq<string>, stem2: string, names2: seq<string>)
    requires document.Map? && IsListing(names, CollectedFromList(ListAt(document, "steps")))
    requires IsListing(names2, CollectedFromList(Migrated(document, stem, names).value.steps))
    ensures var w := Migrated(document, stem, names).value;
      && WholeRoles(w.roles)
      && (Migrated(EmitWorkflow(w), stem2, names2) == Some(w)
          <==> WorkflowName(EmitWorkflow(w), stem2) == w.name && EveryRoleDeclared(document))
  {
    var w := Migrated(document, stem, names).value;
    var steps := ListAt(document, "steps");
    MigratedRoles(document, stem, names);
    RoleKeys(document, stem, names);
    StepsReadBack(steps);
    TextIsStripped(document, "description");
    SecondParts(w, stem2, names2);
    CollectedListIsClean(w.steps);
    ListedKeys(names2, CollectedFromList(w.steps));
    SecondRolesAreSameExactly(w.roles, names2);
    assert NameKeys(names2) == LowerSet(RolesIn(PreorderOfList(steps)));
  }

  lemma ListingExists(collected: set<string>) returns (names: seq<string>)
    ensures IsListing(names, collected)
    decreases |collected|
  {
    names := [];
    if collected != {} {
      var name :| name in collected;
      var rest := ListingExists(collected - {name});
      names := rest + [name];
    }
  }

  /**
   Migrating a migrated document again changes nothing exactly when the name was settled in the first pass and
   every role that the steps name is declared: a made-up role is not read back as it was written.
   */
  lemma SecondPassIsIdleExactly(document: Node, stem: string, names: seq<string>)
    requires document.Map? && IsListing(names, CollectedFromList(ListAt(document, "steps")))
    ensures var w := Migrated(document, stem, names).value;
      WholeRoles(w.roles) && (SecondPassIsIdle(w) <==> KeepsItsName(document, stem) && EveryRoleDeclared(document))
  {
    var w := Migrated(document, stem, names).value;
    MigratedRoles(document, stem, names);
    NameIsKeptExactly(document, stem);
    NameReadsBack(w, stem);
    var names2 := ListingExists(CollectedFromList(w.steps));
    SecondPassWith(document, stem, names, "x", names2);
    if KeepsItsName(document, stem) && EveryRoleDeclared(document) {
      forall stem2, names3 | IsListing(names3, CollectedFromList(w.steps))
        ensures Migrated(EmitWorkflow(w), stem2, names3) == Some(w)
      {
        NameReadsBack(w, stem2);
        SecondPassWith(document, stem, names, stem2, names3);
      }
    }
  }
}
