/**
 The registration store, its lagging projector and the tombstone compactor, running together.

 The projector turns a committed state into one document per entry. It may skip versions, fail half-way
 and retry. The compactor reads the projector's watermark and, some time later, its command reaches the
 store. A pass over an observed version does not start behind the watermark; the replay of a failed one may.
 */
module Compaction {
  import opened Text
  import opened Registrations

  datatype Document = Document(version: nat, entry: Entry)

  datatype WriteResult = Applied | Stale | Gap

  type Documents = map<string, Document>

  // ---- One projection pass ----

  /** The verdict of the document store on a write: it refuses to go back and to jump over a version. */
  function Evaluate(existing: Option<Document>, incoming: nat): WriteResult {
    if existing.None? then Applied
    else if incoming < existing.value.version then Stale
    else if incoming > existing.value.version + 1 then Gap
    else Applied
  }

  function Lookup(docs: Documents, id: string): Option<Document> {
    if id in docs then Some(docs[id]) else None
  }

  /** One turn of the projector's loop. The result of a write is ignored. */
  function ProjectEntry(docs: Documents, e: Entry, version: nat): Documents {
    if IsBlank(e.id) then docs
    else if e.tombstoned then docs - {e.id}
    else if Evaluate(Lookup(docs, e.id), version).Applied? then docs[e.id := Document(version, e)]
    else docs
  }

  /** The documents after a complete pass over the entries of a version. */
  function ProjectAll(docs: Documents, entries: seq<Entry>, version: nat): Documents {
    if entries == [] then docs
    else ProjectEntry(ProjectAll(docs, entries[..|entries| - 1], version), entries[|entries| - 1], version)
  }

  /** The projector loop of `ProjectAsync`. */
  method Project(docs: Documents, entries: seq<Entry>, version: nat) returns (written: Documents)
    ensures written == ProjectAll(docs, entries, version)
  {
    written := docs;
    for i := 0 to |entries|
      invariant written == ProjectAll(docs, entries[..i], version)
    {
      var e := entries[i];
      assert entries[..i + 1][..i] == entries[..i];
      if IsBlank(e.id) {
        continue;
      }
      if e.tombstoned {
        written := written - {e.id};
      } else if Evaluate(Lookup(written, e.id), version).Applied? {
        written := written[e.id := Document(version, e)];
      }
    }
    assert entries[..|entries|] == entries;
  }

  ghost predicate NoBlankIds(entries: seq<Entry>) {
    forall e :: e in entries ==> !IsBlank(e.id)
  }

  /** What a pass leaves for an id: it only depends on the entry of that id and the document it had. */
  function DocumentAfter(before: Option<Document>, entry: Option<Entry>, version: nat): Option<Document> {
    if entry.None? then before
    else if entry.value.tombstoned then None
    else if Evaluate(before, version).Applied? then Some(Document(version, entry.value))
    else before
  }

  lemma {:induction false} PassEffect(docs: Documents, entries: seq<Entry>, version: nat, id: string)
    requires UniqueIds(entries) && NoBlankIds(entries)
    ensures Lookup(ProjectAll(docs, entries, version), id)
         == DocumentAfter(Lookup(docs, id), Find(entries, id), version)
  {
    if entries != [] {
      var (init, last) := (entries[..|entries| - 1], entries[|entries| - 1]);
      PassEffect(docs, init, version, id);
      assert last in entries;
      if last.id == id {
        FindUnique(entries, |entries| - 1);
        assert Find(init, id).None?;
      } else {
        FindPrefix(init, last, id);
        assert init + [last] == entries;
      }
    }
  }

  /** A pass writes nothing under a blank id, whatever the entries are. */
  lemma {:induction false} BlankIdsAreSkipped(docs: Documents, entries: seq<Entry>, version: nat, id: string)
    requires IsBlank(id)
    ensures Lookup(ProjectAll(docs, entries, version), id) == Lookup(docs, id)
  {
    if entries != [] {
      BlankIdsAreSkipped(docs, entries[..|entries| - 1], version, id);
    }
  }

  lemma FindPrefix(init: seq<Entry>, last: Entry, id: string)
    requires last.id != id
    ensures Find(init + [last], id) == Find(init, id)
  {
    var m := IndexOf(init, id);
    var n := IndexOf(init + [last], id);
    assert m < |init| ==> (init + [last])[m].id == id;
  }

  // ---- The running system ----

  /** A projection pass under way: its version, the position of the next entry, the documents it started from. */
  datatype Pass = Pass(version: nat, next: nat, before: Documents)

  datatype World = World(
    history: seq<seq<Entry>>,   // the entries after every committed version; history[0] is the empty store
    docs: Documents,
    watermark: nat,             // the greatest version completed
    newest: nat,                // the greatest version ever begun
    pass: Option<Pass>,
    inFlight: set<nat>,         // safe versions of compaction commands on their way to the store
    failures: set<nat>)         // versions whose pass failed, kept for replay

  datatype Action =
    | Commit(cmd: Command)
    | BeginPass(version: nat)
    | Replay(version: nat)
    | ProjectNext
    | AbandonPass(recorded: bool)
    | CompletePass
    | ReadWatermark
    | DeliverCompaction(safeVersion: nat)
    | ForgetFailure(version: nat)

  function NewWorld(): World {
    World([[]], map[], 0, 0, None, {}, {})
  }

  function Version(w: World): int {
    |w.history| - 1
  }

  function Store(w: World): seq<Entry>
    requires w.history != []
  {
    w.history[|w.history| - 1]
  }

  predicate Enabled(w: World, a: Action) {
    && w.history != []
    && match a
       case Commit(cmd) => !cmd.CompactTombstones? && (cmd.Register? ==> !IsBlank(cmd.freshId))
       case BeginPass(v) => w.pass.None? && w.watermark <= v <= Version(w)
       case Replay(v) => w.pass.None? && v in w.failures && v <= Version(w)
       case ProjectNext => InPass(w) && w.pass.value.next < |w.history[w.pass.value.version]|
       case AbandonPass(_) => w.pass.Some?
       case CompletePass => InPass(w) && w.pass.value.next == |w.history[w.pass.value.version]|
       case ReadWatermark => w.watermark > 0
       case DeliverCompaction(safeVersion) => safeVersion in w.inFlight
       case ForgetFailure(v) => v in w.failures
  }

  predicate InPass(w: World) {
    w.pass.Some? && w.pass.value.version < |w.history|
  }

  function Begin(w: World, v: nat): World {
    w.(pass := Some(Pass(v, 0, w.docs)), newest := if v > w.newest then v else w.newest)
  }

  function Execute(w: World, cmd: Command): World
    requires w.history != []
  {
    var event := Decide(Store(w), Version(w), cmd);
    if event.None? then w else w.(history := w.history + [Apply(Store(w), event.value)])
  }

  function Step(w: World, a: Action): World
    requires Enabled(w, a)
  {
    match a
    case Commit(cmd) => Execute(w, cmd)
    case BeginPass(v) => Begin(w, v)
    case Replay(v) => Begin(w, v)
    case ProjectNext =>
      var pass := w.pass.value;
      w.(docs := ProjectEntry(w.docs, w.history[pass.version][pass.next], pass.version),
         pass := Some(pass.(next := pass.next + 1)))
    case AbandonPass(recorded) =>
      w.(pass := None, failures := if recorded then w.failures + {w.pass.value.version} else w.failures)
    case CompletePass =>
      var v := w.pass.value.version;
      w.(pass := None, watermark := if v > w.watermark then v else w.watermark)
    case ReadWatermark => w.(inFlight := w.inFlight + {w.watermark})
    case DeliverCompaction(safeVersion) =>
      Execute(w.(inFlight := w.inFlight - {safeVersion}), CompactTombstones(safeVersion))
    case ForgetFailure(v) => w.(failures := w.failures - {v})
  }

  predicate Run(w: World, run: seq<Action>)
    decreases |run|
  {
    run == [] || (Enabled(w, run[0]) && Run(Step(w, run[0]), run[1..]))
  }

  function After(w: World, run: seq<Action>): World
    requires Run(w, run)
    decreases |run|
  {
    if run == [] then w else After(Step(w, run[0]), run[1..])
  }

  // ---- Invariants of the history ----

  ghost predicate LiveAt(w: World, id: string, v: nat) {
    v < |w.history| && LiveIn(w.history[v], id)
  }

  /** The id is not blank; a tombstone carries a version that has been committed, a live entry none. */
  predicate EntryOk(e: Entry, version: nat) {
    && !IsBlank(e.id)
    && if e.tombstoned then 0 < e.tombstoneVersion <= version else e.tombstoneVersion == 0
  }

  ghost predicate StateInv(entries: seq<Entry>, version: nat) {
    && UniqueIds(entries)
    && forall e :: e in entries ==> EntryOk(e, version)
  }

  ghost predicate StatesInv(w: World) {
    && w.history != []
    && forall v :: 0 <= v < |w.history| ==> StateInv(w.history[v], v)
  }

  /** An entry seen live carries, when it is dead later on, a tombstone version from after that moment. */
  ghost predicate TombstonesAreYounger(w: World) {
    forall id, a, b :: 0 <= a <= b < |w.history| && LiveAt(w, id, a) && DeadIn(w.history[b], id) ==>
      a < Find(w.history[b], id).value.tombstoneVersion
  }

  /** An entry that was live and is gone was live only behind the watermark. */
  ghost predicate RemovedBehindWatermark(w: World) {
    forall id, a, b :: 0 <= a <= b < |w.history| && LiveAt(w, id, a) && Find(w.history[b], id).None? ==>
      a < w.watermark
  }

  /** A live entry is still there one version later: it cannot vanish without being tombstoned first. */
  ghost predicate LiveNeverVanishes(w: World) {
    forall id, v :: 0 <= v < |w.history| - 1 && LiveAt(w, id, v) ==> Find(w.history[v + 1], id).Some?
  }

  /** An entry that is dead has been dead since the version that its tombstone carries. */
  ghost predicate TombstonesStay(w: World) {
    forall id, v, b ::
      0 <= v <= b < |w.history| && DeadIn(w.history[b], id) && Find(w.history[b], id).value.tombstoneVersion <= v ==>
        DeadAt(w, id, v)
  }

  ghost predicate DeadAt(w: World, id: string, v: nat) {
    v < |w.history| && DeadIn(w.history[v], id)
  }

  ghost predicate HistoryInv(w: World) {
    && StatesInv(w) && TombstonesAreYounger(w) && RemovedBehindWatermark(w) && LiveNeverVanishes(w)
    && w.watermark <= w.newest <= Version(w)
    && (forall safeVersion :: safeVersion in w.inFlight ==> safeVersion <= w.watermark)
  }

  lemma EntryAfterIsOk(cmd: Command, version: nat, before: Option<Entry>, id: string)
    requires before.Some? ==> before.value.id == id && EntryOk(before.value, version)
    requires cmd.Register? ==> !IsBlank(cmd.freshId)
    ensures var after := EntryAfter(cmd, version, before, id); after.Some? ==> EntryOk(after.value, version + 1)
  {
  }

  lemma ExecuteKeepsStates(w: World, cmd: Command)
    requires StatesInv(w) && (cmd.Register? ==> !IsBlank(cmd.freshId))
    ensures StatesInv(Execute(w, cmd))
  {
    var next := Executed(Store(w), Version(w), cmd);
    CommandEffect(Store(w), Version(w), cmd, "");
    forall e | e in next
      ensures EntryOk(e, Version(w) + 1)
    {
      var i :| 0 <= i < |next| && next[i] == e;
      FindUnique(next, i);
      CommandEffect(Store(w), Version(w), cmd, e.id);
      var before := Find(Store(w), e.id);
      if before.Some? {
        assert before.value in Store(w);
      }
      EntryAfterIsOk(cmd, Version(w), before, e.id);
    }
  }

  /** What was live before a command is live or young after it, or was removed behind the watermark. */
  lemma ExecuteKeepsEntry(w: World, cmd: Command, id: string, a: nat)
    requires HistoryInv(w) && (cmd.CompactTombstones? ==> cmd.safeVersion <= w.watermark) && LiveAt(w, id, a)
    ensures var after := Find(Executed(Store(w), Version(w), cmd), id);
      && (after.Some? && after.value.tombstoned ==> a < after.value.tombstoneVersion)
      && (after.None? ==> a < w.watermark && a < Version(w))
  {
    CommandEffect(Store(w), Version(w), cmd, id);
  }

  lemma ExecuteKeepsHistory(w: World, cmd: Command)
    requires HistoryInv(w) && (cmd.Register? ==> !IsBlank(cmd.freshId))
    requires cmd.CompactTombstones? ==> cmd.safeVersion <= w.watermark
    ensures HistoryInv(Execute(w, cmd))
  {
    ExecuteKeepsStates(w, cmd);
    var t := Execute(w, cmd);
    if t != w {
      var n := |w.history|;
      forall id, a, b | 0 <= a <= b <= n && LiveAt(t, id, a)
        ensures DeadIn(t.history[b], id) ==> a < Find(t.history[b], id).value.tombstoneVersion
        ensures Find(t.history[b], id).None? ==> a < t.watermark && b != a + 1
      {
        if a < n {
          assert LiveAt(w, id, a);
          ExecuteKeepsEntry(w, cmd, id, a);
        }
      }
    }
  }

  lemma ExecuteKeepsTombstones(w: World, cmd: Command)
    requires HistoryInv(w) && TombstonesStay(w)
    ensures TombstonesStay(Execute(w, cmd))
  {
    var (t, n) := (Execute(w, cmd), |w.history|);
    if t != w {
      forall id, v, b | 0 <= v <= b <= n && DeadIn(t.history[b], id) && Find(t.history[b], id).value.tombstoneVersion <= v
        ensures DeadAt(t, id, v)
      {
        if b < n {
          assert DeadAt(w, id, v);
        } else if v < n {
          CommandEffect(Store(w), Version(w), cmd, id);
          assert DeadIn(w.history[n - 1], id);
          assert DeadAt(w, id, v);
        }
      }
    }
  }

  // ---- Invariants of a pass ----

  /** A pass has produced the documents of the live entries, and removed those of the dead ones, that it passed. */
  ghost predicate PassInv(w: World) {
    w.pass.Some? ==>
      var (v, next) := (w.pass.value.version, w.pass.value.next);
      && v <= w.newest && v < |w.history| && next <= |w.history[v]|
      && w.docs == ProjectAll(w.pass.value.before, w.history[v][..next], v)
      && forall j :: 0 <= j < next ==> (w.history[v][j].tombstoned <==> w.history[v][j].id !in w.docs)
  }

  /** What holds in every run, with any replays. */
  ghost predicate WorldInv(w: World) {
    HistoryInv(w) && TombstonesStay(w) && PassInv(w)
  }

  lemma ExecuteKeepsWorld(w: World, cmd: Command)
    requires WorldInv(w) && (cmd.Register? ==> !IsBlank(cmd.freshId))
    requires cmd.CompactTombstones? ==> cmd.safeVersion <= w.watermark
    ensures WorldInv(Execute(w, cmd))
  {
    ExecuteKeepsHistory(w, cmd);
    ExecuteKeepsTombstones(w, cmd);
  }

  lemma ProjectNextKeepsPass(w: World)
    requires HistoryInv(w) && PassInv(w) && Enabled(w, ProjectNext)
    ensures PassInv(Step(w, ProjectNext))
  {
    var (t, v, i) := (Step(w, ProjectNext), w.pass.value.version, w.pass.value.next);
    var (e, entries) := (w.history[v][i], w.history[v]);
    assert e in entries && StateInv(entries, v);
    assert entries[..i + 1][..i] == entries[..i];
    forall j | 0 <= j < i + 1
      ensures entries[j].tombstoned <==> entries[j].id !in t.docs
    {
      if j < i {
        assert entries[j].id != e.id;
      }
    }
  }

  lemma ProjectNextDocs(w: World, id: string)
    requires StatesInv(w) && Enabled(w, ProjectNext) && id in Step(w, ProjectNext).docs && id !in w.docs
    ensures LiveAt(w, id, w.pass.value.version)
  {
    FindUnique(w.history[w.pass.value.version], w.pass.value.next);
  }

  /** Steps that leave the history alone. */
  lemma SameHistory(w: World, t: World)
    requires HistoryInv(w) && TombstonesStay(w) && t.history == w.history
    requires w.watermark <= t.watermark <= t.newest <= Version(t)
    requires forall safeVersion :: safeVersion in t.inFlight ==> safeVersion <= t.watermark
    ensures HistoryInv(t) && TombstonesStay(t)
    ensures forall id, u :: LiveAt(w, id, u) ==> LiveAt(t, id, u)
  {
    forall id, a, b | 0 <= a <= b < |t.history| && LiveAt(t, id, a)
      ensures DeadIn(t.history[b], id) ==> a < Find(t.history[b], id).value.tombstoneVersion
      ensures Find(t.history[b], id).None? ==> a < t.watermark && b != a + 1
    {
      assert LiveAt(w, id, a);
    }
    forall id, v, b | 0 <= v <= b < |t.history| && DeadIn(t.history[b], id) && Find(t.history[b], id).value.tombstoneVersion <= v
      ensures DeadAt(t, id, v)
    {
      assert DeadAt(w, id, v);
    }
  }

  lemma StepKeepsWorld(w: World, a: Action)
    requires WorldInv(w) && Enabled(w, a)
    ensures WorldInv(Step(w, a))
  {
    var t := Step(w, a);
    match a
    case Commit(cmd) => ExecuteKeepsWorld(w, cmd);
    case DeliverCompaction(safeVersion) =>
      var u := w.(inFlight := w.inFlight - {safeVersion});
      SameHistory(w, u);
      ExecuteKeepsWorld(u, CompactTombstones(safeVersion));
    case ProjectNext =>
      ProjectNextKeepsPass(w);
      SameHistory(w, t);
    case _ => SameHistory(w, t);
  }

  lemma {:induction false} RunKeepsWorld(w: World, run: seq<Action>)
    requires WorldInv(w) && Run(w, run)
    ensures WorldInv(After(w, run))
    decreases |run|
  {
    if run != [] {
      StepKeepsWorld(w, run[0]);
      RunKeepsWorld(Step(w, run[0]), run[1..]);
    }
  }

  // ---- Documents that compaction cannot orphan ----

  /** The id is live in the store, or its tombstone is out of the compactor's reach as the watermark stands. */
  ghost predicate Covered(w: World, id: string)
    requires w.history != []
  {
    var e := Find(Store(w), id);
    e.Some? && (e.value.tombstoned ==> w.watermark < e.value.tombstoneVersion)
  }

  /** What a replay has to check: everything live at the version that failed is still covered. */
  ghost predicate SafeReplay(w: World, v: nat) {
    v < |w.history| && forall id :: LiveAt(w, id, v) ==> Covered(w, id)
  }

  /** Every replay of the run is safe where it starts. */
  ghost predicate Guarded(w: World, run: seq<Action>)
    requires Run(w, run)
    decreases |run|
  {
    run == [] || ((run[0].Replay? ==> SafeReplay(w, run[0].version)) && Guarded(Step(w, run[0]), run[1..]))
  }

  ghost predicate SafeInv(w: World) {
    && WorldInv(w)
    && (forall id :: id in w.docs ==> Covered(w, id))
    && (w.pass.Some? ==> SafeReplay(w, w.pass.value.version))
  }

  /** A pass that does not start behind the watermark is always safe. */
  lemma ForwardPassIsSafe(w: World, v: nat)
    requires HistoryInv(w) && w.watermark <= v < |w.history|
    ensures SafeReplay(w, v)
  {
    forall id | LiveAt(w, id, v)
      ensures Covered(w, id)
    {
      assert 0 <= v <= Version(w) < |w.history|;
    }
  }

  lemma ExecuteKeepsCovered(w: World, cmd: Command, id: string)
    requires HistoryInv(w) && Covered(w, id) && (cmd.CompactTombstones? ==> cmd.safeVersion <= w.watermark)
    ensures var t := Execute(w, cmd); t.history != [] && Covered(t, id)
  {
    CommandEffect(Store(w), Version(w), cmd, id);
  }

  lemma ExecuteKeepsSafe(w: World, cmd: Command)
    requires SafeInv(w) && (cmd.Register? ==> !IsBlank(cmd.freshId))
    requires cmd.CompactTombstones? ==> cmd.safeVersion <= w.watermark
    ensures SafeInv(Execute(w, cmd))
  {
    ExecuteKeepsWorld(w, cmd);
    var t := Execute(w, cmd);
    forall id | Covered(w, id)
      ensures Covered(t, id)
    {
      ExecuteKeepsCovered(w, cmd, id);
    }
    if w.pass.Some? {
      forall id | LiveAt(t, id, w.pass.value.version)
        ensures Covered(t, id)
      {
        assert LiveAt(w, id, w.pass.value.version);
      }
    }
  }

  /** An entry that a completed pass leaves a document for is not one that its version saw dead. */
  lemma CompletePassKeepsCovered(w: World, id: string)
    requires WorldInv(w) && Enabled(w, CompletePass) && id in w.docs && Covered(w, id)
    ensures Covered(Step(w, CompletePass), id)
  {
    var (v, e) := (w.pass.value.version, Find(Store(w), id).value);
    PassIsExact(w, id);
    if e.tombstoned {
      assert e.tombstoneVersion <= v ==> DeadAt(w, id, v);
    }
  }

  lemma StepKeepsSafe(w: World, a: Action)
    requires SafeInv(w) && Enabled(w, a) && (a.Replay? ==> SafeReplay(w, a.version))
    ensures SafeInv(Step(w, a))
  {
    StepKeepsWorld(w, a);
    var t := Step(w, a);
    match a
    case Commit(cmd) => ExecuteKeepsSafe(w, cmd);
    case DeliverCompaction(safeVersion) =>
      var u := w.(inFlight := w.inFlight - {safeVersion});
      SameHistory(w, u);
      SameCovered(w, u);
      ExecuteKeepsSafe(u, CompactTombstones(safeVersion));
    case BeginPass(v) =>
      ForwardPassIsSafe(w, v);
      SameCovered(w, t);
    case Replay(v) => SameCovered(w, t);
    case CompletePass =>
      forall id | id in t.docs
        ensures Covered(t, id)
      {
        CompletePassKeepsCovered(w, id);
      }
    case ProjectNext =>
      SameCovered(w, t);
      forall id | id in t.docs
        ensures Covered(t, id)
      {
        if id !in w.docs {
          ProjectNextDocs(w, id);
        }
      }
    case _ => SameCovered(w, t);
  }

  lemma SameCovered(w: World, t: World)
    requires w.history != [] && t.history == w.history && t.watermark == w.watermark
    ensures forall id :: Covered(t, id) <==> Covered(w, id)
    ensures forall v: nat :: SafeReplay(t, v) <==> SafeReplay(w, v)
  {
    forall id, v: nat
      ensures LiveAt(t, id, v) <==> LiveAt(w, id, v)
    {
    }
    forall v: nat
      ensures SafeReplay(t, v) <==> SafeReplay(w, v)
    {
      if SafeReplay(w, v) {
        forall id | LiveAt(t, id, v)
          ensures Covered(t, id)
        {
          assert LiveAt(w, id, v);
        }
      }
      if SafeReplay(t, v) {
        forall id | LiveAt(w, id, v)
          ensures Covered(w, id)
        {
          assert LiveAt(t, id, v);
        }
      }
    }
  }

  lemma {:induction false} RunKeepsSafe(w: World, run: seq<Action>)
    requires SafeInv(w) && Run(w, run) && Guarded(w, run)
    ensures SafeInv(After(w, run))
    decreases |run|
  {
    if run != [] {
      StepKeepsSafe(w, run[0]);
      RunKeepsSafe(Step(w, run[0]), run[1..]);
    }
  }

  // ---- Main results over runs ----

  /** Every document belongs to an entry of the store, live or tombstoned. */
  ghost predicate NoOrphans(w: World) {
    w.history != [] && forall id :: id in w.docs ==> Find(Store(w), id).Some?
  }

  /** No document outlives compaction, in every state that a run with safe replays reaches. */
  lemma NoDocumentOutlivesCompaction(run: seq<Action>)
    requires Run(NewWorld(), run) && Guarded(NewWorld(), run)
    ensures NoOrphans(After(NewWorld(), run))
  {
    RunKeepsSafe(NewWorld(), run);
  }

  /** What a completed pass leaves, in every run: the live entries of its version, and documents it does not know. */
  lemma CompletedPassLeaves(run: seq<Action>, id: string)
    requires Run(NewWorld(), run) && Enabled(After(NewWorld(), run), CompletePass)
    ensures var w := After(NewWorld(), run);
      var entries := w.history[w.pass.value.version];
      id in w.docs <==> LiveIn(entries, id) || (Find(entries, id).None? && id in w.pass.value.before)
  {
    RunKeepsWorld(NewWorld(), run);
    var w := After(NewWorld(), run);
    PassIsExact(w, id);
  }

  lemma PassIsExact(w: World, id: string)
    requires WorldInv(w) && Enabled(w, CompletePass)
    ensures var entries := w.history[w.pass.value.version];
      id in w.docs <==> LiveIn(entries, id) || (Find(entries, id).None? && id in w.pass.value.before)
  {
    var (v, pass) := (w.pass.value.version, w.pass.value);
    assert w.history[v][..pass.next] == w.history[v] && StateInv(w.history[v], v);
    PassEffect(pass.before, w.history[v], v, id);
  }

  ghost predicate ExactlyLive(docs: Documents, entries: seq<Entry>) {
    forall id :: id in docs <==> LiveIn(entries, id)
  }

  lemma ExactUnlessUnknown(docs: Documents, before: Documents, entries: seq<Entry>)
    requires forall id :: id in docs <==> LiveIn(entries, id) || (Find(entries, id).None? && id in before)
    ensures ExactlyLive(docs, entries) <==> forall id :: id in before ==> Find(entries, id).Some?
  {
    if id :| id in before && Find(entries, id).None? {
      assert id in docs && !LiveIn(entries, id);
    }
  }

  /**
   The documents are exactly the live entries of the version, unless there were documents whose entry it does
   not have; these were registered later, so there are none when the version is the store's newest.
   */
  ghost predicate LeavesExactly(w: World, v: nat, before: Documents)
    requires v < |w.history|
  {
    && (ExactlyLive(w.docs, w.history[v]) <==> forall id :: id in before ==> Find(w.history[v], id).Some?)
    && (forall id :: id in before && Find(w.history[v], id).None? ==> Find(Store(w), id).Some?)
    && (v == Version(w) ==> ExactlyLive(w.docs, w.history[v]))
  }

  /** A document that the completed version does not know belongs to an entry of the store all the same. */
  lemma UnknownIsInStore(w: World, id: string)
    requires SafeInv(w) && Enabled(w, CompletePass) && id in w.pass.value.before
    requires Find(w.history[w.pass.value.version], id).None?
    ensures Find(Store(w), id).Some?
  {
    PassIsExact(w, id);
  }

  lemma DocsOfPass(w: World)
    requires WorldInv(w) && Enabled(w, CompletePass)
    ensures var (entries, before) := (w.history[w.pass.value.version], w.pass.value.before);
      ExactlyLive(w.docs, entries) <==> forall id :: id in before ==> Find(entries, id).Some?
  {
    var (entries, before) := (w.history[w.pass.value.version], w.pass.value.before);
    forall id
      ensures id in w.docs <==> LiveIn(entries, id) || (Find(entries, id).None? && id in before)
    {
      PassIsExact(w, id);
    }
    ExactUnlessUnknown(w.docs, before, entries);
  }

  lemma SafePassIsExact(w: World)
    requires SafeInv(w) && Enabled(w, CompletePass)
    ensures LeavesExactly(w, w.pass.value.version, w.pass.value.before)
  {
    var (v, before) := (w.pass.value.version, w.pass.value.before);
    forall id | id in before && Find(w.history[v], id).None?
      ensures Find(Store(w), id).Some?
    {
      UnknownIsInStore(w, id);
    }
    assert v == Version(w) ==> w.history[v] == Store(w);
    DocsOfPass(w);
  }

  /** Whenever the projector completes a version, in a run with safe replays, it `LeavesExactly` what it should. */
  lemma CompletedPassIsExact(run: seq<Action>)
    requires Run(NewWorld(), run) && Guarded(NewWorld(), run) && Enabled(After(NewWorld(), run), CompletePass)
    ensures var w := After(NewWorld(), run); LeavesExactly(w, w.pass.value.version, w.pass.value.before)
  {
    RunKeepsSafe(NewWorld(), run);
    SafePassIsExact(After(NewWorld(), run));
  }

  // ---- Runs without replays ----

  /** The entry of a document was live at a version that the projector has begun and not left behind. */
  ghost predicate SeenLive(w: World, id: string) {
    exists u :: w.watermark <= u <= w.newest && LiveAt(w, id, u)
  }

  ghost predicate ForwardInv(w: World) {
    && WorldInv(w)
    && (forall id :: id in w.docs ==> SeenLive(w, id))
    && (w.pass.Some? ==> w.watermark <= w.pass.value.version)
  }

  lemma StillSeenLive(w: World, t: World, id: string)
    requires SeenLive(w, id) && t.watermark == w.watermark && w.newest <= t.newest && w.history <= t.history
    ensures SeenLive(t, id)
  {
    var u :| w.watermark <= u <= w.newest && LiveAt(w, id, u);
    assert LiveAt(t, id, u);
  }

  /** Once a pass is complete, whatever has a document was live at the version of the pass or later. */
  lemma CompletedPassSeesAll(w: World, id: string)
    requires ForwardInv(w) && Enabled(w, CompletePass) && id in w.docs
    ensures exists u :: w.pass.value.version <= u <= w.newest && LiveAt(w, id, u)
  {
    var v := w.pass.value.version;
    var u :| w.watermark <= u <= w.newest && LiveAt(w, id, u);
    if u < v {
      var entry := Find(w.history[v], id);
      if entry.Some? {
        assert w.history[v][IndexOf(w.history[v], id)] == entry.value;
        assert LiveAt(w, id, v);
      }
    }
  }

  lemma StepKeepsForward(w: World, a: Action)
    requires ForwardInv(w) && Enabled(w, a) && !a.Replay?
    ensures ForwardInv(Step(w, a))
  {
    StepKeepsWorld(w, a);
    var t := Step(w, a);
    assert w.history <= t.history;
    forall id | id in t.docs
      ensures SeenLive(t, id)
    {
      if a.CompletePass? {
        CompletedPassSeesAll(w, id);
        var u :| w.pass.value.version <= u <= w.newest && LiveAt(w, id, u);
        assert LiveAt(t, id, u);
      } else if id in w.docs {
        StillSeenLive(w, t, id);
      } else {
        ProjectNextDocs(w, id);
        assert LiveAt(t, id, w.pass.value.version);
      }
    }
  }

  lemma {:induction false} RunKeepsForward(w: World, run: seq<Action>)
    requires ForwardInv(w) && Run(w, run) && forall a :: a in run ==> !a.Replay?
    ensures ForwardInv(After(w, run))
    decreases |run|
  {
    if run != [] {
      assert run[0] in run && forall a :: a in run[1..] ==> a in run;
      StepKeepsForward(w, run[0]);
      RunKeepsForward(Step(w, run[0]), run[1..]);
    }
  }

  /** Without replays, completing the newest version begun always leaves exactly its live entries. */
  lemma ForwardPassIsExact(run: seq<Action>)
    requires Run(NewWorld(), run) && forall a :: a in run ==> !a.Replay?
    requires var w := After(NewWorld(), run); Enabled(w, CompletePass) && w.pass.value.version == w.newest
    ensures var w := After(NewWorld(), run); ExactlyLive(w.docs, w.history[w.newest])
  {
    RunKeepsForward(NewWorld(), run);
    var w := After(NewWorld(), run);
    forall id
      ensures id in w.docs <==> LiveIn(w.history[w.newest], id)
    {
      PassIsExact(w, id);
      if id in w.docs {
        CompletedPassSeesAll(w, id);
      }
    }
  }

  /** Deleting an id again gives it a strictly greater tombstone version. */
  lemma TombstoneVersionsGrow(run: seq<Action>, id: string, a: nat, b: nat, c: nat)
    requires Run(NewWorld(), run)
    requires var h := After(NewWorld(), run).history;
      a < b < c < |h| && DeadIn(h[a], id) && LiveIn(h[b], id) && DeadIn(h[c], id)
    ensures var h := After(NewWorld(), run).history;
      Find(h[a], id).value.tombstoneVersion < Find(h[c], id).value.tombstoneVersion
  {
    RunKeepsWorld(NewWorld(), run);
    var w := After(NewWorld(), run);
    assert StateInv(w.history[a], a);
    assert Find(w.history[a], id).value in w.history[a];
    assert LiveAt(w, id, b);
  }

  // ---- Contents of the documents ----

  /** The documents of exactly the live entries, each with the contents of this version. */
  ghost predicate Materialized(docs: Documents, entries: seq<Entry>, version: nat) {
    forall id :: Lookup(docs, id) ==
      if LiveIn(entries, id) then Some(Document(version, Find(entries, id).value)) else None
  }

  /** A completed pass brings a live entry's document up to date exactly when it had none, or one without a gap. */
  lemma ContentsAreFreshExactly(run: seq<Action>, id: string)
    requires Run(NewWorld(), run)
    requires var w := After(NewWorld(), run);
      Enabled(w, CompletePass) && LiveIn(w.history[w.pass.value.version], id)
    ensures var w := After(NewWorld(), run);
      var (v, before) := (w.pass.value.version, w.pass.value.before);
      Lookup(w.docs, id) == Some(Document(v, Find(w.history[v], id).value))
      <==> id !in before || before[id].version <= v <= before[id].version + 1
  {
    RunKeepsWorld(NewWorld(), run);
    var w := After(NewWorld(), run);
    var (v, pass) := (w.pass.value.version, w.pass.value);
    assert w.history[v][..pass.next] == w.history[v];
    assert StateInv(w.history[v], v);
    PassEffect(pass.before, w.history[v], v, id);
  }

  /** The documents after passes over these versions, in this order. */
  function ProjectVersions(docs: Documents, history: seq<seq<Entry>>, versions: seq<nat>): Documents
    requires forall i :: 0 <= i < |versions| ==> versions[i] < |history|
    decreases |versions|
  {
    if versions == [] then docs
    else ProjectVersions(ProjectAll(docs, history[versions[0]], versions[0]), history, versions[1..])
  }

  /**
   While its entry lives, a document keeps its contents through any passes until there is one over exactly the
   version after its own: only the replay of the version that it missed heals a gap.
   */
  lemma {:induction false} GapHealsExactly(docs: Documents, history: seq<seq<Entry>>, versions: seq<nat>, id: string)
    requires forall v :: 0 <= v < |history| ==> StateInv(history[v], v)
    requires forall i :: 0 <= i < |versions| ==> versions[i] < |history| && LiveIn(history[versions[i]], id)
    requires id in docs && docs[id].version < |history| && Find(history[docs[id].version], id) == Some(docs[id].entry)
    ensures Lookup(ProjectVersions(docs, history, versions), id) == Some(docs[id])
       <==> docs[id].version + 1 !in versions
    decreases |versions|
  {
    if versions != [] {
      var v := versions[0];
      PassEffect(docs, history[v], v, id);
      var next := ProjectAll(docs, history[v], v);
      if v == docs[id].version + 1 {
        VersionsGrow(next, history, versions[1..], id);
      } else {
        assert next[id] == docs[id];
        GapHealsExactly(next, history, versions[1..], id);
      }
    }
  }

  /** Passes never take a document back to an earlier version while its entry lives. */
  lemma {:induction false} VersionsGrow(docs: Documents, history: seq<seq<Entry>>, versions: seq<nat>, id: string)
    requires forall v :: 0 <= v < |history| ==> StateInv(history[v], v)
    requires forall i :: 0 <= i < |versions| ==> versions[i] < |history| && LiveIn(history[versions[i]], id)
    requires id in docs
    ensures var after := Lookup(ProjectVersions(docs, history, versions), id);
      after.Some? && docs[id].version <= after.value.version
    decreases |versions|
  {
    if versions != [] {
      PassEffect(docs, history[versions[0]], versions[0], id);
      VersionsGrow(ProjectAll(docs, history[versions[0]], versions[0]), history, versions[1..], id);
    }
  }

  lemma GaplessPass(docs: Documents, entries: seq<Entry>, next: seq<Entry>, version: nat)
    requires Materialized(docs, entries, version) && StateInv(next, version + 1)
    requires forall id :: LiveIn(entries, id) ==> Find(next, id).Some?
    ensures Materialized(ProjectAll(docs, next, version + 1), next, version + 1)
  {
    forall id
      ensures Lookup(ProjectAll(docs, next, version + 1), id) ==
        if LiveIn(next, id) then Some(Document(version + 1, Find(next, id).value)) else None
    {
      PassEffect(docs, next, version + 1, id);
    }
  }

  /** The documents after a pass over every version up to n, skipping none. */
  function ProjectUpTo(history: seq<seq<Entry>>, n: nat): Documents
    requires n < |history|
  {
    if n == 0 then map[] else ProjectAll(ProjectUpTo(history, n - 1), history[n], n)
  }

  lemma {:induction false} GaplessUpTo(w: World, n: nat)
    requires WorldInv(w) && n < |w.history| && w.history[0] == []
    ensures Materialized(ProjectUpTo(w.history, n), w.history[n], n)
  {
    if n > 0 {
      GaplessUpTo(w, n - 1);
      forall id | LiveIn(w.history[n - 1], id)
        ensures Find(w.history[n], id).Some?
      {
        assert LiveAt(w, id, n - 1);
      }
      GaplessPass(ProjectUpTo(w.history, n - 1), w.history[n - 1], w.history[n], n - 1);
    }
  }

  /** A projector that skips no version always shows exactly the live entries with their current contents. */
  lemma GaplessProjectionIsExact(run: seq<Action>, n: nat)
    requires Run(NewWorld(), run) && n < |After(NewWorld(), run).history|
    ensures var w := After(NewWorld(), run); Materialized(ProjectUpTo(w.history, n), w.history[n], n)
  {
    RunKeepsWorld(NewWorld(), run);
    FirstVersionIsEmpty(NewWorld(), run);
    GaplessUpTo(After(NewWorld(), run), n);
  }

  lemma {:induction false} FirstVersionIsEmpty(w: World, run: seq<Action>)
    requires Run(w, run) && w.history != [] && w.history[0] == []
    ensures var t := After(w, run); t.history != [] && t.history[0] == []
    decreases |run|
  {
    if run != [] {
      FirstVersionIsEmpty(Step(w, run[0]), run[1..]);
    }
  }

  // ---- Replaying a failed version ----

  lemma RunCons(w: World, a: Action, rest: seq<Action>)
    requires Enabled(w, a) && Run(Step(w, a), rest)
    ensures Run(w, [a] + rest) && After(w, [a] + rest) == After(Step(w, a), rest)
    ensures !a.Replay? && Guarded(Step(w, a), rest) ==> Guarded(w, [a] + rest)
  {
  }

  /** The rest of a pass, up to its completion. */
  lemma {:induction false} FinishPass(w: World) returns (run: seq<Action>)
    requires WorldInv(w) && InPass(w)
    ensures Run(w, run) && Guarded(w, run)
    ensures var t := After(w, run); var v := w.pass.value.version;
      && t.history == w.history && t.pass.None? && WorldInv(t)
      && t.watermark == (if v > w.watermark then v else w.watermark)
      && forall id :: LiveAt(w, id, v) ==> id in t.docs
    decreases |w.history[w.pass.value.version]| - w.pass.value.next
  {
    var (v, next) := (w.pass.value.version, w.pass.value.next);
    if next == |w.history[v]| {
      StepKeepsWorld(w, CompletePass);
      RunCons(w, CompletePass, []);
      run := [CompletePass] + [];
      forall id | LiveAt(w, id, v)
        ensures id in w.docs
      {
        PassIsExact(w, id);
      }
    } else {
      var t := Step(w, ProjectNext);
      StepKeepsWorld(w, ProjectNext);
      var rest := FinishPass(t);
      forall id | LiveAt(w, id, v)
        ensures id in After(t, rest).docs
      {
        assert LiveAt(t, id, v);
      }
      RunCons(w, ProjectNext, rest);
      run := [ProjectNext] + rest;
    }
  }

  /** A tombstone that the watermark has reached is removed by one round of the compactor. */
  lemma CompactorRound(w: World, id: string) returns (run: seq<Action>)
    requires WorldInv(w) && IsRemovable(Find(Store(w), id), w.watermark)
    ensures Run(w, run) && Guarded(w, run)
    ensures var t := After(w, run); t.history != [] && t.docs == w.docs && Find(Store(t), id).None?
  {
    var read := Step(w, ReadWatermark);
    var cmd := CompactTombstones(w.watermark);
    CommandEffect(Store(w), Version(w), cmd, id);
    RunCons(read, DeliverCompaction(w.watermark), []);
    run := [DeliverCompaction(w.watermark)] + [];
    RunCons(w, ReadWatermark, run);
    run := [ReadWatermark] + run;
  }

  /** A replay of something live then and not covered now can be followed by steps that leave an orphan. */
  lemma UnsafeReplayOrphans(w: World, v: nat, id: string) returns (run: seq<Action>)
    requires WorldInv(w) && Enabled(w, Replay(v)) && LiveAt(w, id, v) && !Covered(w, id)
    ensures Run(Step(w, Replay(v)), run) && Guarded(Step(w, Replay(v)), run)
    ensures var t := After(Step(w, Replay(v)), run); t.history != [] && id in t.docs && Find(Store(t), id).None?
  {
    var begun := Step(w, Replay(v));
    StepKeepsWorld(w, Replay(v));
    assert LiveAt(begun, id, v);
    run := FinishPass(begun);
    var finished := After(begun, run);
    var e := Find(Store(w), id);
    if e.Some? {
      assert StateInv(Store(w), Version(w)) && e.value in Store(w);
      var round := CompactorRound(finished, id);
      RunAppend(begun, run, round);
      run := run + round;
    }
  }

  /**
   Replays are safe exactly when everything live at the replayed version is live in the store or carries a
   tombstone version above the watermark: then no continuation with safe replays leaves an orphan, and
   otherwise one without any further replay does.
   */
  lemma ReplayIsSafeExactly(run: seq<Action>, v: nat)
    requires Run(NewWorld(), run) && Guarded(NewWorld(), run) && Enabled(After(NewWorld(), run), Replay(v))
    ensures var w := After(NewWorld(), run);
      var begun := Step(w, Replay(v));
      SafeReplay(w, v)
      <==> (forall more :: Run(begun, more) && Guarded(begun, more) ==> NoOrphans(After(begun, more)))
  {
    RunKeepsSafe(NewWorld(), run);
    var w := After(NewWorld(), run);
    var begun := Step(w, Replay(v));
    if SafeReplay(w, v) {
      StepKeepsSafe(w, Replay(v));
      forall more | Run(begun, more) && Guarded(begun, more)
        ensures NoOrphans(After(begun, more))
      {
        RunKeepsSafe(begun, more);
      }
    } else {
      var id :| LiveAt(w, id, v) && !Covered(w, id);
      var more := UnsafeReplayOrphans(w, v, id);
      assert !NoOrphans(After(begun, more));
    }
  }

  /** No pass over a version that no longer knows the id removes such a document again. */
  lemma OrphanStays(docs: Documents, entries: seq<Entry>, version: nat, id: string)
    requires StateInv(entries, version) && Find(entries, id).None?
    ensures Lookup(ProjectAll(docs, entries, version), id) == Lookup(docs, id)
  {
    PassEffect(docs, entries, version, id);
  }

  function Removed(e: Entry): Entry {
    e.(tombstoned := true, tombstoneVersion := 2)
  }

  function RegisterCommand(e: Entry): Command {
    Register(e.id, e.scopeId, e.details, e.id)
  }

  predicate Registrable(e: Entry) {
    && !e.tombstoned && e.tombstoneVersion == 0 && Lower(e.details.platform) == "lark"
    && !IsBlank(e.id) && !IsBlank(e.scopeId) && Trim(e.scopeId) == e.scopeId
  }

  lemma RegisterThenFail(e: Entry) returns (run: seq<Action>)
    requires Registrable(e)
    ensures Run(NewWorld(), run) && Guarded(NewWorld(), run)
    ensures After(NewWorld(), run) == World([[], [e]], map[], 0, 1, None, {}, {1})
  {
    assert Decide([], 0, RegisterCommand(e)) == Some(Registered(e));
    assert Apply([], Registered(e)) == [e];
    var w1 := World([[], [e]], map[], 0, 0, None, {}, {});
    assert Step(NewWorld(), Commit(RegisterCommand(e))) == w1;
    var w2 := Step(w1, BeginPass(1));
    RunCons(w2, AbandonPass(true), []);
    run := [AbandonPass(true)] + [];
    RunCons(w1, BeginPass(1), run);
    run := [BeginPass(1)] + run;
    RunCons(NewWorld(), Commit(RegisterCommand(e)), run);
    run := [Commit(RegisterCommand(e))] + run;
  }

  lemma RemoveThenProject(e: Entry) returns (run: seq<Action>)
    requires Registrable(e)
    ensures var w := World([[], [e]], map[], 0, 1, None, {}, {1});
      && Run(w, run) && Guarded(w, run)
      && After(w, run) == World([[], [e], [Removed(e)]], map[], 2, 2, None, {}, {1})
  {
    assert Find([e], e.id) == Some(e);
    assert Decide([e], 1, Unregister(e.id)) == Some(Unregistered(e.id, 2));
    assert Apply([e], Unregistered(e.id, 2)) == [Removed(e)];
    var w1 := World([[], [e]], map[], 0, 1, None, {}, {1});
    var w2 := World([[], [e], [Removed(e)]], map[], 0, 1, None, {}, {1});
    assert Step(w1, Commit(Unregister(e.id))) == w2;
    var w3 := Step(w2, BeginPass(2));
    var w4 := Step(w3, ProjectNext);
    assert w4.docs == map[];
    RunCons(w4, CompletePass, []);
    run := [CompletePass] + [];
    RunCons(w3, ProjectNext, run);
    run := [ProjectNext] + run;
    RunCons(w2, BeginPass(2), run);
    run := [BeginPass(2)] + run;
    RunCons(w1, Commit(Unregister(e.id)), run);
    run := [Commit(Unregister(e.id))] + run;
  }

  lemma {:induction false} RunAppend(w: World, run: seq<Action>, more: seq<Action>)
    requires Run(w, run) && Run(After(w, run), more)
    ensures Run(w, run + more) && After(w, run + more) == After(After(w, run), more)
    ensures Guarded(w, run) && Guarded(After(w, run), more) ==> Guarded(w, run + more)
    decreases |run|
  {
    if run == [] {
      assert run + more == more;
    } else {
      RunAppend(Step(w, run[0]), run[1..], more);
      assert (run + more)[1..] == run[1..] + more;
    }
  }

  /**
   Registration, a failed pass, removal, a complete pass: replaying the failure, while the tombstone is still
   in the store, resurrects a document that the next round of the compactor orphans.
   */
  lemma ReplayResurrects(e: Entry) returns (before: seq<Action>, after: seq<Action>)
    requires Registrable(e)
    ensures Run(NewWorld(), before) && Guarded(NewWorld(), before)
    ensures var w := After(NewWorld(), before);
      && Enabled(w, Replay(1)) && Find(Store(w), e.id).Some?
      && Run(Step(w, Replay(1)), after) && Guarded(Step(w, Replay(1)), after)
      && var t := After(Step(w, Replay(1)), after); t.history != [] && e.id in t.docs && Find(Store(t), e.id).None?
  {
    var first := RegisterThenFail(e);
    var second := RemoveThenProject(e);
    RunAppend(NewWorld(), first, second);
    before := first + second;
    var w := After(NewWorld(), before);
    RunKeepsWorld(NewWorld(), before);
    assert Find([e], e.id) == Some(e) && Find([Removed(e)], e.id) == Some(Removed(e));
    assert LiveAt(w, e.id, 1) && !Covered(w, e.id);
    after := UnsafeReplayOrphans(w, 1, e.id);
  }
}
