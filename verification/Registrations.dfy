/**
 The channel bot registration store: an event-sourced actor that soft-deletes its entries and stamps each
 tombstone with the version of its own unregister event.
 */
module Registrations {
  import opened Text

  datatype Details = Details(
    platform: string,
    providerSlug: string,
    webhookUrl: string,
    channelBotId: string,
    apiKeyId: string,
    routeId: string,
    createdAt: int)

  datatype Entry = Entry(id: string, scopeId: string, details: Details, tombstoned: bool, tombstoneVersion: nat)

  datatype Command =
    | Register(requestedId: string, scopeId: string, details: Details, freshId: string)
    | Unregister(id: string)
    | RepairScope(id: string, scopeId: string)
    | RebuildProjection
    | CompactTombstones(safeVersion: int)

  datatype Event =
    | Registered(entry: Entry)
    | RegistrationRejected
    | ScopeRepaired(id: string, scopeId: string)
    | RebuildRequested
    | Unregistered(id: string, tombstoneVersion: nat)
    | TombstonesCompacted(ids: seq<string>)

  const SUPPORTED_PLATFORMS := {"lark", "telegram"}

  /** The index of the first entry with this id, or the number of entries. */
  function IndexOf(entries: seq<Entry>, id: string): (i: nat)
    ensures i <= |entries|
    ensures i < |entries| ==> entries[i].id == id
    ensures forall j :: 0 <= j < i ==> entries[j].id != id
  {
    if entries == [] || entries[0].id == id then 0 else 1 + IndexOf(entries[1..], id)
  }

  function Find(entries: seq<Entry>, id: string): Option<Entry> {
    var i := IndexOf(entries, id);
    if i < |entries| then Some(entries[i]) else None
  }

  function WithoutIds(entries: seq<Entry>, ids: seq<string>): seq<Entry> {
    if entries == [] then []
    else (if entries[0].id in ids then [] else [entries[0]]) + WithoutIds(entries[1..], ids)
  }

  /** Ids of the tombstones that the watermark has passed, without blanks; `ToHashSet` ignores duplicates. */
  function Compactable(entries: seq<Entry>, safeVersion: int): seq<string> {
    if entries == [] then []
    else
      var (e, rest) := (entries[0], Compactable(entries[1..], safeVersion));
      if e.tombstoned && 0 < e.tombstoneVersion <= safeVersion && !IsBlank(e.id)
      then [e.id] + rest else rest
  }

  // ---- Commands ----

  /** The event that a command commits at this state and version, if any. */
  function Decide(entries: seq<Entry>, version: nat, cmd: Command): Option<Event> {
    match cmd
    case Register(requestedId, scopeId, details, freshId) =>
      if Lower(details.platform) !in SUPPORTED_PLATFORMS then None
      else if IsBlank(scopeId) then Some(RegistrationRejected)
      else Some(Registered(Entry(if IsBlank(requestedId) then freshId else requestedId,
                                 Trim(scopeId), details, false, 0)))
    case Unregister(id) =>
      var entry := Find(entries, id);
      if entry.None? || entry.value.tombstoned then None
      else Some(Unregistered(id, version + 1))
    case RepairScope(rawId, rawScopeId) =>
      var (id, scopeId) := (Trim(rawId), Trim(rawScopeId));
      var entry := Find(entries, id);
      if id == "" || scopeId == "" || entry.None? || entry.value.tombstoned || entry.value.scopeId == scopeId
      then None
      else Some(ScopeRepaired(id, scopeId))
    case RebuildProjection => Some(RebuildRequested)
    case CompactTombstones(safeVersion) =>
      var ids := Compactable(entries, safeVersion);
      if safeVersion <= 0 || ids == [] then None else Some(TombstonesCompacted(ids))
  }

  // ---- State transitions ----

  function Apply(entries: seq<Entry>, event: Event): seq<Entry> {
    match event
    case Registered(entry) =>
      var i := IndexOf(entries, entry.id);
      (if i < |entries| then entries[..i] + entries[i + 1..] else entries)
      + [entry.(tombstoned := false, tombstoneVersion := 0)]
    case ScopeRepaired(id, scopeId) =>
      var i := IndexOf(entries, id);
      if i == |entries| || entries[i].tombstoned then entries
      else entries[i := entries[i].(scopeId := scopeId)]
    case Unregistered(id, tombstoneVersion) =>
      var i := IndexOf(entries, id);
      if i == |entries| then entries
      else entries[i := entries[i].(tombstoned := true, tombstoneVersion := tombstoneVersion)]
    case TombstonesCompacted(ids) => WithoutIds(entries, ids)
    case RegistrationRejected => entries
    case RebuildRequested => entries
  }

  /** The actor. Every handler commits at most one event and applies it. */
  class ChannelBotRegistrationStore {
    var registrations: seq<Entry>
    var version: nat

    constructor ()
      ensures registrations == [] && version == 0
    {
      registrations, version := [], 0;
    }

    method Persist(event: Event)
      modifies this
      ensures registrations == Apply(old(registrations), event) && version == old(version) + 1
    {
      registrations := Apply(registrations, event);
      version := version + 1;
    }

    twostate predicate Handled(cmd: Command)
      reads this
    {
      && registrations == Executed(old(registrations), old(version), cmd)
      && version == VersionAfter(old(registrations), old(version), cmd)
    }

    method HandleRegister(requestedId: string, scopeId: string, details: Details, freshId: string)
      modifies this
      ensures Handled(Register(requestedId, scopeId, details, freshId))
    {
      if Lower(details.platform) !in SUPPORTED_PLATFORMS {
        return;
      }
      if IsBlank(scopeId) {
        Persist(RegistrationRejected);
        return;
      }
      var id := if !IsBlank(requestedId) then requestedId else freshId;
      Persist(Registered(Entry(id, Trim(scopeId), details, false, 0)));
    }

    method HandleUnregister(id: string)
      modifies this
      ensures Handled(Unregister(id))
    {
      var entry := Find(registrations, id);
      if entry.None? || entry.value.tombstoned {
        return;
      }
      Persist(Unregistered(id, version + 1));
    }

    method HandleRepairScopeId(rawId: string, rawScopeId: string)
      modifies this
      ensures Handled(RepairScope(rawId, rawScopeId))
    {
      var id := Trim(rawId);
      if id == "" {
        return;
      }
      var scopeId := Trim(rawScopeId);
      if scopeId == "" {
        return;
      }
      var entry := Find(registrations, id);
      if entry.None? || entry.value.tombstoned {
        return;
      }
      if entry.value.scopeId == scopeId {
        return;
      }
      Persist(ScopeRepaired(id, scopeId));
    }

    method HandleRebuildProjection()
      modifies this
      ensures Handled(RebuildProjection)
      ensures version == old(version) + 1 && registrations == old(registrations)
    {
      Persist(RebuildRequested);
    }

    method HandleCompactTombstones(safeVersion: int)
      modifies this
      ensures Handled(CompactTombstones(safeVersion))
    {
      if safeVersion <= 0 {
        return;
      }
      var ids := Compactable(registrations, safeVersion);
      if ids == [] {
        return;
      }
      Persist(TombstonesCompacted(ids));
    }
  }

  // ---- What one event does to the entries ----

  ghost predicate UniqueIds(entries: seq<Entry>) {
    forall i, j :: 0 <= i < j < |entries| ==> entries[i].id != entries[j].id
  }

  ghost predicate LiveIn(entries: seq<Entry>, id: string) {
    Find(entries, id).Some? && !Find(entries, id).value.tombstoned
  }

  ghost predicate DeadIn(entries: seq<Entry>, id: string) {
    Find(entries, id).Some? && Find(entries, id).value.tombstoned
  }

  lemma FindUnique(entries: seq<Entry>, i: nat)
    requires UniqueIds(entries) && i < |entries|
    ensures Find(entries, entries[i].id) == Some(entries[i])
  {
  }

  lemma FindCons(e: Entry, rest: seq<Entry>, id: string)
    ensures Find([e] + rest, id) == if e.id == id then Some(e) else Find(rest, id)
  {
    assert ([e] + rest)[1..] == rest;
  }

  lemma {:induction false} FindWithoutIds(entries: seq<Entry>, ids: seq<string>, id: string)
    ensures Find(WithoutIds(entries, ids), id) == if id in ids then None else Find(entries, id)
  {
    if entries != [] {
      var rest := WithoutIds(entries[1..], ids);
      FindWithoutIds(entries[1..], ids, id);
      assert entries == [entries[0]] + entries[1..];
      FindCons(entries[0], entries[1..], id);
      FindCons(entries[0], rest, id);
      assert [] + rest == rest;
    }
  }

  lemma {:induction false} WithoutIdsUnique(entries: seq<Entry>, ids: seq<string>)
    requires UniqueIds(entries)
    ensures UniqueIds(WithoutIds(entries, ids))
    ensures forall e :: e in WithoutIds(entries, ids) ==> e in entries
  {
    if entries != [] {
      var rest := WithoutIds(entries[1..], ids);
      WithoutIdsUnique(entries[1..], ids);
      forall i | 0 <= i < |rest|
        ensures rest[i].id != entries[0].id && rest[i] in entries
      {
        assert rest[i] in rest;
        var j :| 0 <= j < |entries[1..]| && entries[1..][j] == rest[i];
        assert entries[j + 1] == rest[i];
      }
    }
  }

  /** A tombstone that a compaction at this safe version removes. */
  predicate IsRemovable(before: Option<Entry>, safeVersion: int) {
    before.Some? && before.value.tombstoned && 0 < before.value.tombstoneVersion <= safeVersion && !IsBlank(before.value.id)
  }

  lemma {:induction false} CompactableAreMembers(entries: seq<Entry>, safeVersion: int, id: string)
    ensures id in Compactable(entries, safeVersion) ==> exists i :: 0 <= i < |entries| && entries[i].id == id
  {
    if entries != [] && id in Compactable(entries[1..], safeVersion) {
      CompactableAreMembers(entries[1..], safeVersion, id);
      var i :| 0 <= i < |entries[1..]| && entries[1..][i].id == id;
      assert entries[i + 1].id == id;
    }
  }

  /** The compactor chooses exactly the removable tombstones. */
  lemma {:induction false} CompactableExactly(entries: seq<Entry>, safeVersion: int, id: string)
    requires UniqueIds(entries)
    ensures id in Compactable(entries, safeVersion) <==> IsRemovable(Find(entries, id), safeVersion)
  {
    if entries != [] {
      var rest := entries[1..];
      assert entries == [entries[0]] + rest;
      FindCons(entries[0], rest, id);
      CompactableExactly(rest, safeVersion, id);
      if entries[0].id == id {
        CompactableAreMembers(rest, safeVersion, id);
        assert forall i :: 0 <= i < |rest| ==> rest[i] == entries[i + 1];
      }
    }
  }

  lemma FindUpdated(entries: seq<Entry>, i: nat, e: Entry, id: string)
    requires UniqueIds(entries) && i < |entries| && e.id == entries[i].id
    ensures UniqueIds(entries[i := e])
    ensures Find(entries[i := e], id) == if id == e.id then Some(e) else Find(entries, id)
  {
    var next := entries[i := e];
    assert forall k :: 0 <= k < |entries| ==> next[k].id == entries[k].id;
    var (m, n) := (IndexOf(entries, id), IndexOf(next, id));
    assert m == n by {
      if m < |entries| { assert next[m].id == id; }
      if n < |entries| { assert entries[n].id == id; }
    }
  }

  lemma FindDropped(entries: seq<Entry>, i: nat, id: string)
    requires UniqueIds(entries) && i < |entries|
    ensures var kept := entries[..i] + entries[i + 1..];
      UniqueIds(kept) && Find(kept, id) == if id == entries[i].id then None else Find(entries, id)
  {
    var kept := entries[..i] + entries[i + 1..];
    var m := IndexOf(entries, id);
    if id != entries[i].id && m < |entries| {
      var k := if m < i then m else m - 1;
      assert kept[k] == entries[m];
      FindUnique(kept, k);
    }
  }

  lemma FindAppended(entries: seq<Entry>, e: Entry, id: string)
    requires UniqueIds(entries) && Find(entries, e.id).None?
    ensures UniqueIds(entries + [e]) && Find(entries + [e], id) == if id == e.id then Some(e) else Find(entries, id)
  {
    var next := entries + [e];
    if id == e.id {
      FindUnique(next, |entries|);
    } else {
      var m := IndexOf(entries, id);
      if m < |entries| {
        assert next[m] == entries[m];
        FindUnique(next, m);
      }
    }
  }

  lemma FindReplaced(entries: seq<Entry>, e: Entry, id: string)
    requires UniqueIds(entries)
    ensures var i := IndexOf(entries, e.id);
      var next := (if i < |entries| then entries[..i] + entries[i + 1..] else entries) + [e];
      UniqueIds(next) && Find(next, id) == if id == e.id then Some(e) else Find(entries, id)
  {
    var i := IndexOf(entries, e.id);
    if i < |entries| {
      var kept := entries[..i] + entries[i + 1..];
      FindDropped(entries, i, e.id);
      FindDropped(entries, i, id);
      FindAppended(kept, e, id);
    } else {
      FindAppended(entries, e, id);
    }
  }

  /** Which entry a command leaves for an id, in terms of the one that it found. */
  function EntryAfter(cmd: Command, version: nat, before: Option<Entry>, id: string): Option<Entry> {
    match cmd
    case Register(requestedId, scopeId, details, freshId) =>
      if Lower(details.platform) in SUPPORTED_PLATFORMS && !IsBlank(scopeId)
         && id == (if IsBlank(requestedId) then freshId else requestedId)
      then Some(Entry(id, Trim(scopeId), details, false, 0)) else before
    case Unregister(target) =>
      if id == target && before.Some? && !before.value.tombstoned
      then Some(before.value.(tombstoned := true, tombstoneVersion := version + 1)) else before
    case RepairScope(rawId, rawScopeId) =>
      if id == Trim(rawId) && id != "" && Trim(rawScopeId) != "" && before.Some? && !before.value.tombstoned
      then Some(before.value.(scopeId := Trim(rawScopeId))) else before
    case RebuildProjection => before
    case CompactTombstones(safeVersion) => if IsRemovable(before, safeVersion) then None else before
  }

  /** The entries after a command, whether or not it commits an event. */
  function Executed(entries: seq<Entry>, version: nat, cmd: Command): seq<Entry> {
    var event := Decide(entries, version, cmd);
    if event.None? then entries else Apply(entries, event.value)
  }

  lemma RegisterEffect(entries: seq<Entry>, version: nat, cmd: Command, id: string)
    requires UniqueIds(entries) && cmd.Register?
    ensures UniqueIds(Executed(entries, version, cmd))
    ensures Find(Executed(entries, version, cmd), id) == EntryAfter(cmd, version, Find(entries, id), id)
  {
    var event := Decide(entries, version, cmd);
    if event.Some? && event.value.Registered? {
      FindReplaced(entries, event.value.entry, id);
    }
  }

  lemma UnregisterEffect(entries: seq<Entry>, version: nat, cmd: Command, id: string)
    requires UniqueIds(entries) && cmd.Unregister?
    ensures UniqueIds(Executed(entries, version, cmd))
    ensures Find(Executed(entries, version, cmd), id) == EntryAfter(cmd, version, Find(entries, id), id)
  {
    var i := IndexOf(entries, cmd.id);
    if i < |entries| {
      FindUpdated(entries, i, entries[i].(tombstoned := true, tombstoneVersion := version + 1), id);
    }
  }

  lemma RepairEffect(entries: seq<Entry>, version: nat, cmd: Command, id: string)
    requires UniqueIds(entries) && cmd.RepairScope?
    ensures UniqueIds(Executed(entries, version, cmd))
    ensures Find(Executed(entries, version, cmd), id) == EntryAfter(cmd, version, Find(entries, id), id)
  {
    var i := IndexOf(entries, Trim(cmd.id));
    if i < |entries| {
      FindUpdated(entries, i, entries[i].(scopeId := Trim(cmd.scopeId)), id);
    }
  }

  lemma CompactEffect(entries: seq<Entry>, version: nat, cmd: Command, id: string)
    requires UniqueIds(entries) && cmd.CompactTombstones?
    ensures UniqueIds(Executed(entries, version, cmd))
    ensures Find(Executed(entries, version, cmd), id) == EntryAfter(cmd, version, Find(entries, id), id)
  {
    var ids := Compactable(entries, cmd.safeVersion);
    CompactableExactly(entries, cmd.safeVersion, id);
    WithoutIdsUnique(entries, ids);
    FindWithoutIds(entries, ids, id);
  }

  /** A command does to the entry of its own id exactly what it says, and nothing to any other. */
  lemma CommandEffect(entries: seq<Entry>, version: nat, cmd: Command, id: string)
    requires UniqueIds(entries)
    ensures UniqueIds(Executed(entries, version, cmd))
    ensures Find(Executed(entries, version, cmd), id) == EntryAfter(cmd, version, Find(entries, id), id)
  {
    match cmd
    case Register(_, _, _, _) => RegisterEffect(entries, version, cmd, id);
    case Unregister(_) => UnregisterEffect(entries, version, cmd, id);
    case RepairScope(_, _) => RepairEffect(entries, version, cmd, id);
    case RebuildProjection =>
    case CompactTombstones(_) => CompactEffect(entries, version, cmd, id);
  }

  // ---- When the version advances ----

  function VersionAfter(entries: seq<Entry>, version: nat, cmd: Command): nat {
    version + if Decide(entries, version, cmd).Some? then 1 else 0
  }

  /** What a command has to meet to be committed, by its fields and the entries. */
  ghost predicate Commits(entries: seq<Entry>, cmd: Command) {
    match cmd
    case Register(_, _, details, _) =>
      SameIgnoringCase(details.platform, "lark") || SameIgnoringCase(details.platform, "telegram")
    case Unregister(id) => LiveIn(entries, id)
    case RepairScope(id, scopeId) =>
      && !IsBlank(id) && !IsBlank(scopeId) && LiveIn(entries, Trim(id))
      && Find(entries, Trim(id)).value.scopeId != Trim(scopeId)
    case RebuildProjection => true
    case CompactTombstones(safeVersion) =>
      exists i :: 0 <= i < |entries| && entries[i].tombstoned && 0 < entries[i].tombstoneVersion <= safeVersion
                  && !IsBlank(entries[i].id)
  }

  lemma {:induction false} CompactableFromSome(entries: seq<Entry>, safeVersion: int)
    ensures Compactable(entries, safeVersion) != [] <==> Commits(entries, CompactTombstones(safeVersion))
  {
    if entries != [] {
      CompactableFromSome(entries[1..], safeVersion);
      assert forall i :: 0 <= i < |entries[1..]| ==> entries[1..][i] == entries[i + 1];
      if Commits(entries, CompactTombstones(safeVersion)) {
        var i :| 0 <= i < |entries| && entries[i].tombstoned && 0 < entries[i].tombstoneVersion <= safeVersion
                 && !IsBlank(entries[i].id);
        assert i > 0 ==> entries[1..][i - 1] == entries[i];
      }
    }
  }

  lemma SupportedPlatforms(platform: string)
    ensures Lower(platform) in SUPPORTED_PLATFORMS
      <==> SameIgnoringCase(platform, "lark") || SameIgnoringCase(platform, "telegram")
  {
    LowerIsCaseless(platform, "lark");
    LowerIsCaseless(platform, "telegram");
    assert Lower("lark") == "lark" && Lower("telegram") == "telegram";
  }

  /**
   A command advances the version, by one, exactly when it is committed: a registration on a supported platform always
   (a missing scope is committed as a rejection), a rebuild always, the others when they find something to change.
   */
  lemma VersionAdvancesExactly(entries: seq<Entry>, version: nat, cmd: Command)
    ensures VersionAfter(entries, version, cmd) == version + if Commits(entries, cmd) then 1 else 0
    ensures !Commits(entries, cmd) || cmd.RebuildProjection? ==> Executed(entries, version, cmd) == entries
  {
    match cmd
    case Register(_, _, details, _) => SupportedPlatforms(details.platform);
    case Unregister(_) =>
    case RepairScope(id, scopeId) =>
      TrimBlank(id);
      TrimBlank(scopeId);
    case RebuildProjection =>
    case CompactTombstones(safeVersion) => CompactableFromSome(entries, safeVersion);
  }

  /** A registration is committed as a rejection exactly when its scope is blank, and then leaves the entries. */
  lemma RejectedExactly(entries: seq<Entry>, version: nat, cmd: Command)
    requires cmd.Register? && Commits(entries, cmd)
    ensures Decide(entries, version, cmd) == Some(RegistrationRejected) <==> IsBlank(cmd.scopeId)
    ensures IsBlank(cmd.scopeId) ==> Executed(entries, version, cmd) == entries
  {
    SupportedPlatforms(cmd.details.platform);
  }
}
