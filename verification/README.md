# Aevatar agents: a verification model

Dafny models of the stateful parts of the Aevatar agents, with machine-checked proofs of what they guarantee
over whole runs. `dafny verify dfyconfig.toml` checks everything.

## What is modelled

**Streaming replies** (`StreamingSink`, `StreamingProtocol`, `StreamingTurn`). A reply sink is shared by the
calling turn, a timer thread and a dispatch loop. Each `lock` block is one method of a class and one function on
values. The protocol lets these blocks, timer callbacks (also of timers that were already disposed), dispatch
outcomes, cancellation and disposal interleave freely. The turn adds the inbox runtime that feeds and finalizes
the sink and then sends the ready event.

**Tombstones, projection and compaction** (`Registrations`, `Compaction`, `Compactor`). The channel bot store
soft-deletes entries; a projector that may skip versions, fail half-way and retry turns states into documents;
a compactor removes tombstones behind the projector's watermark. Replays of failed versions are part of the
model.

**Output chunks** (`OutputChunker`), **text commands** (`CommandTokens`, `WorkflowCommands`) and the
**workflow migrator** (`Yaml`, `JsonReading`, `StepMigration`, `StepMigrator`, `RoleMigration`, `WorkflowMigration`,
`DocumentMigration`, `SecondPass`) are loops and recursive transformations proved against functions, whose
properties are conservation, exact bounds, round trips, closure and idempotence.

**Actors** (`SkillRunner`, `SkillRunnerActor`, `ChatHistory`, `ChatHistoryActors`, `Registry`, `Household`).
Handlers are methods of a class, each proved to leave the state of a function. The skill runner is modelled call
by call: before each awaited call armed callbacks may fire, and each call may throw before or after its effect.
Conversations and indexes exchange messages through queues that are delivered in any order.

## What the proofs found

Where a property does not hold of the code, the code is modelled as it is; a lemma gives a run or an input that
breaks the property, and another says exactly when it holds.

- A text submitted again while another one is in flight, or after another whose acknowledgement was lost, is taken
  for already sent and not sent: the actor is left with the other one. It is lost in these two cases only
  (`ShortcutLosesExactly`, `RepeatedTextIsLost`, `RepeatAfterLostAcknowledgement`).
- Without finalization a chunk can follow the ready event, since the sink is disposed after it: exactly when the sink
  `MayFollow` at that moment (`ChunkAfterReady`, `ChunkFollowsReadyExactly`).
- The document store refuses a write that jumps over a version and the projector ignores the refusal, so the
  document stays stale while its entry lives, until a replay of exactly the version that it missed
  (`ContentsAreFreshExactly`, `GapHealsExactly`).
- Replaying a failed version can bring back a document that compaction can no longer remove. It is safe exactly when
  everything live at that version is live now or has a tombstone version above the watermark
  (`ReplayIsSafeExactly`, `ReplayResurrects`).
- The reserve for continuation markers is exactly used up at three-digit part numbers, where the comment speaks
  of a safe ceiling; it suffices exactly for up to 999 parts, and every output of up to n characters fits exactly for
  n < 14,970,500 (`ReserveSufficesExactly`, `GuaranteedLengthExactly`, `ThousandPartsOverflow`). The comment
  on the paragraph search says that a break reaching one character past the window is found;
  `LastIndexOf` finds only breaks wholly inside it, and the model follows the code.
- The fallback commands of the legacy markdown put backslashes before their quotes, which the parser keeps
  (`LegacyMarkdownNeverRoundTrips`).
- A step normalized under a fallback id with white space around it changes again in a second pass
  (`IdempotentExactly`); a document with a made-up role does, too (`SecondPassIsIdleExactly`).
- A role reference that is not a text is written out as one, but gets no role (`NumberedRoleIsDangling`).
- A retry that cannot be armed leaves an enabled runner without any callback (`EscapedExceptionKillsSchedule`).
  What keeps a schedule alive is not that handlers succeed but which calls took effect (`AliveThroughoutExactly`):
  one call that arms is enough, unless the same turn cancels it again (`OneArmingIsEnough`, `RearmingKillsSchedule`).
- A new activation has no leases and cannot cancel the callbacks of the old one (`DisabledButArmed`); disabling leaves
  nothing armed exactly when the leases match, and an activation keeps them so exactly when it is safe
  (`DisarmsExactly`, `ActivationKeepsLeasesExactly`, `LeasesMatchInRuns`). The callback service numbers a callback that
  replaces none from one again, so a lease on an earlier one can reach it (`ReplacementIsReachedExactly`).
- A conversation deleted without its scope stays listed, and no later delete makes that good (`DeleteAgreesExactly`,
  `LostDeleteIsNotMadeGood`).
- No event leads a household into the modes `frozen` and `sleeping` that reasoning checks for (`ModeNeverBlocks`).
- Counting household actions reads the clock while old events are applied again, so a new activation can change the
  count (`ActionCountDependsOnReplay`). It restores the state exactly when the minute window opens at the same event
  and time (`ReactivationRestoresExactly`); with three actions in the log it blocks reasoning for a minute
  (`OldActionsBlock`).

## Assumptions

Actors handle one message at a time and commit versions without gaps. Messages from one actor to another keep
their order. Clocks do not run backwards where times are compared. The ids that a generator makes are not blank.
A document of the same version comes from the same event. The callback service behaves like the in-memory one: one
callback for each id, with a generation that cancelling has to name. A callback fires at most once for each time it
is armed.
Commands to a conversation carry its own scope and a fixed id, except where a lemma says what happens otherwise.

## Model

| member | source | states |
|---|---|---|
| StreamingSink.TurnStreamingReplySink.constructor | agents/Aevatar.GAgents.Channel.Runtime/TurnStreamingReplySink.cs:73-95 | A new sink has emitted nothing, holds nothing pending, and clamps a negative throttle to zero. |
| StreamingSink.TurnStreamingReplySink.Flush | agents/Aevatar.GAgents.Channel.Runtime/TurnStreamingReplySink.cs:137-217 | The lock block of a submission leaves exactly the state and the decision of `FlushBlock`; a blank text changes nothing. |
| StreamingSink.TurnStreamingReplySink.OnFlushTimerFired | agents/Aevatar.GAgents.Channel.Runtime/TurnStreamingReplySink.cs:219-247 | A callback, stale or not, disposes whatever timer is armed and takes the pending text only when no loop runs and it is new. |
| StreamingSink.TurnStreamingReplySink.RecordDispatched | agents/Aevatar.GAgents.Channel.Runtime/TurnStreamingReplySink.cs:333-339 | An acknowledged chunk becomes the last emitted text, stamps the emit time and is counted. |
| StreamingSink.TurnStreamingReplySink.PollPending | agents/Aevatar.GAgents.Channel.Runtime/TurnStreamingReplySink.cs:268-292 | After a dispatch the loop takes the pending text or leaves, handing out the drain signal in the same block. |
| StreamingSink.TurnStreamingReplySink.AbortLoop | agents/Aevatar.GAgents.Channel.Runtime/TurnStreamingReplySink.cs:297-307 | A loop that a cancellation threw out of clears the in-progress flag, hands out the drain signal and leaves the pending text. |
| StreamingSink.TurnStreamingReplySink.Dispose | agents/Aevatar.GAgents.Channel.Runtime/TurnStreamingReplySink.cs:117-135 | Disposal drops timer and pending text and hands out the drain signal, once. |
| StreamingProtocol.StepKeepsInv | agents/Aevatar.GAgents.Channel.Runtime/TurnStreamingReplySink.cs:137-352 | Every step of every interleaving keeps the whole protocol invariant: one loop, flag equals loop, timers, drain signals, order of the log. |
| StreamingProtocol.RunKeepsInv | agents/Aevatar.GAgents.Channel.Runtime/TurnStreamingReplySink.cs:137-352 | The invariant holds in every reachable state. |
| StreamingProtocol.SubmittedByRun | agents/Aevatar.GAgents.Channel.Runtime/TurnStreamingReplySink.cs:105-115 | The recorded submissions are exactly the texts that the calls of the run submitted. |
| StreamingProtocol.ThrottleOpensExactly | agents/Aevatar.GAgents.Channel.Runtime/TurnStreamingReplySink.cs:179-210 | After any run that leaves the sink live and idle, a new text that is not final starts a loop if and only if the throttle, no less than zero, has passed since the last recorded time; otherwise a timer is armed for the moment when it has. |
| StreamingProtocol.SubmissionAfterRun | agents/Aevatar.GAgents.Channel.Runtime/TurnStreamingReplySink.cs:145-217 | What a submission does after any run, by what the run recorded: ignored when disposed, cleared when already sent, handed to the running loop, sent, or put aside with a timer that was armed already or is armed for the end of the window; a final one waits for the drain signal of a running loop. |
| StreamingProtocol.RunRecords | agents/Aevatar.GAgents.Channel.Runtime/TurnStreamingReplySink.cs:333-339 | The sink's emitted text and time are those of the last acknowledgement that the run recorded, its throttle never changes, and it is disposed exactly if the run disposed it. |
| StreamingProtocol.EmbeddingIsSubsequence | agents/Aevatar.GAgents.Channel.Runtime/TurnStreamingReplySink.cs:258-311 | A log whose entries point at growing positions of the submissions is a subsequence of them. |
| StreamingProtocol.ChunksAreOrdered | agents/Aevatar.GAgents.Channel.Runtime/TurnStreamingReplySink.cs:137-352 | In every run at most one dispatch loop exists, the flag says whether it does, the actor sees an in-order subsequence of the submitted texts, and no two equal neighbours unless an acknowledgement was lost. |
| StreamingProtocol.NoLostTail | agents/Aevatar.GAgents.Channel.Runtime/TurnStreamingReplySink.cs:145-210 | Without cancellation and disposal, with equal texts submitted only together: at rest nothing is pending and the newest text was the last one attempted. |
| StreamingProtocol.ShortcutLosesExactly | agents/Aevatar.GAgents.Channel.Runtime/TurnStreamingReplySink.cs:150-159 | Submit a text in any reachable state and let the sink come to rest without failures: the actor has seen it last, unless it repeats the emitted text while another is in flight, or after another that was delivered without its acknowledgement. Both directions, over all continuations. |
| StreamingProtocol.SmoothRunKeepsOutcome | agents/Aevatar.GAgents.Channel.Runtime/TurnStreamingReplySink.cs:258-311 | Without submissions and failures every interleaving leads to the same last text. |
| StreamingProtocol.RunKeepsEcho | agents/Aevatar.GAgents.Channel.Runtime/TurnStreamingReplySink.cs:333-339 | In every reachable state the emitted text is that of the last acknowledged chunk, and chunks after it are unacknowledged. |
| StreamingProtocol.RepeatAfterLostAcknowledgement | agents/Aevatar.GAgents.Channel.Runtime/TurnStreamingReplySink.cs:150-159 | A concrete run submitting a, b, a, with nothing in flight between them, that ends at rest with b on the wire because the acknowledgement of b was lost. |
| StreamingProtocol.RepeatedTextIsLost | agents/Aevatar.GAgents.Channel.Runtime/TurnStreamingReplySink.cs:150-159 | A concrete run submitting a, b, a that ends at rest with b on the wire. |
| StreamingProtocol.OnlyCancellationStrands | agents/Aevatar.GAgents.Channel.Runtime/TurnStreamingReplySink.cs:297-307 | Pending text is left without anybody to look at it by exactly one kind of step: cancelling a loop while something is pending. |
| StreamingProtocol.NoFinalizerHangs | agents/Aevatar.GAgents.Channel.Runtime/TurnStreamingReplySink.cs:161-176 | A drain signal exists only while a loop runs on a live sink, and once loops and releases are through no finalizing call is left waiting. |
| StreamingProtocol.DisposedSinkFallsSilent | agents/Aevatar.GAgents.Channel.Runtime/TurnStreamingReplySink.cs:117-135 | After disposal at most the chunk that was being sent still reaches the actor. |
| StreamingProtocol.QuietRun | agents/Aevatar.GAgents.Channel.Runtime/TurnStreamingReplySink.cs:258-311 | From a state outside `MayFollow` no run without submissions adds a chunk. |
| StreamingProtocol.LoudRun | agents/Aevatar.GAgents.Channel.Runtime/TurnStreamingReplySink.cs:258-311 | From a state inside `MayFollow` there is a run without submissions that adds a chunk. |
| StreamingProtocol.ChunkFollowsExactly | agents/Aevatar.GAgents.Channel.Runtime/TurnStreamingReplySink.cs:219-311 | A chunk can still reach the actor without a further submission if and only if the state is `MayFollow`. |
| StreamingTurn.ReadyComesLast | agents/Aevatar.GAgents.NyxidChat/ChannelLlmReplyInboxRuntime.cs:173-225 | On the finalized path every chunk precedes the ready event, and none can follow it. |
| StreamingTurn.FinalTextIsOnTheWire | agents/Aevatar.GAgents.NyxidChat/ChannelLlmReplyInboxRuntime.cs:173-178 | When finalizing has returned, the final text was the last attempt and is on the wire exactly if it was acknowledged. |
| StreamingTurn.NobodyWaitsForever | agents/Aevatar.GAgents.NyxidChat/ChannelLlmReplyInboxRuntime.cs:150-178 | A turn that waits for the drain signal can resume once the background has come to rest. |
| StreamingTurn.ChunkAfterReady | agents/Aevatar.GAgents.NyxidChat/ChannelLlmReplyInboxRuntime.cs:188-225 | A concrete run without finalization in which a chunk reaches the actor after the ready event, because the sink is disposed only at the end of the scope. |
| StreamingTurn.ChunkFollowsReadyExactly | agents/Aevatar.GAgents.NyxidChat/ChannelLlmReplyInboxRuntime.cs:188-225 | In every run of a turn: a chunk can still follow the ready event if and only if the sink is `MayFollow` at that moment. |
| StreamingTurn.TurnRunKeepsInv | agents/Aevatar.GAgents.NyxidChat/ChannelLlmReplyInboxRuntime.cs:150-225 | The protocol invariant of the sink holds in every reachable state of the turn. |
| StreamingTurn.FinalizedExactly | agents/Aevatar.GAgents.NyxidChat/ChannelLlmReplyInboxRuntime.cs:173-197 | A turn's ready event counts as finalized if and only if the turn called the finalizer. |
| StreamingTurn.GeneratorTextsAreSafe | agents/Aevatar.GAgents.NyxidChat/ConversationReplyGenerator.cs:99-122 | What the generator submits meets the no-lost-tail assumption if and only if the placeholder is blank, nothing is generated, or no later accumulated text repeats it. |
| Registrations.ChannelBotRegistrationStore.constructor | agents/Aevatar.GAgents.Channel.Runtime/ChannelBotRegistrationGAgent.cs:22-31 | A new store is empty at version 0. |
| Registrations.ChannelBotRegistrationStore.Persist | agents/Aevatar.GAgents.Channel.Runtime/ChannelBotRegistrationGAgent.cs:204-267 | Committing an event applies it and advances the version by one. |
| Registrations.ChannelBotRegistrationStore.HandleRegister | agents/Aevatar.GAgents.Channel.Runtime/ChannelBotRegistrationGAgent.cs:49-97 | The command commits exactly the event of `Decide`, or nothing, and leaves the state that the event makes. |
| Registrations.ChannelBotRegistrationStore.HandleUnregister | agents/Aevatar.GAgents.Channel.Runtime/ChannelBotRegistrationGAgent.cs:100-115 | An unregister stamps the tombstone with the version of its own event, or commits nothing. |
| Registrations.ChannelBotRegistrationStore.HandleRepairScopeId | agents/Aevatar.GAgents.Channel.Runtime/ChannelBotRegistrationGAgent.cs:118-162 | A scope repair commits exactly the event of `Decide`, or nothing. |
| Registrations.ChannelBotRegistrationStore.HandleRebuildProjection | agents/Aevatar.GAgents.Channel.Runtime/ChannelBotRegistrationGAgent.cs:165-176 | A rebuild request always commits an event: the version advances by one and the entries stay. |
| Registrations.ChannelBotRegistrationStore.HandleCompactTombstones | agents/Aevatar.GAgents.Channel.Runtime/ChannelBotRegistrationGAgent.cs:179-200 | A compaction commits the removal of exactly the tombstones at or below the safe version, if there are any. |
| Registrations.CommandEffect | agents/Aevatar.GAgents.Channel.Runtime/ChannelBotRegistrationGAgent.cs:49-263 | A command does to the entry of its own id exactly what it says, nothing to the entry of any other id, and ids stay unique. |
| Registrations.CompactableExactly | agents/Aevatar.GAgents.Channel.Runtime/ChannelBotRegistrationGAgent.cs:184-190 | A compaction chooses an id if and only if its entry is a tombstone whose version the safe version has reached. |
| Registrations.VersionAdvancesExactly | agents/Aevatar.GAgents.Channel.Runtime/ChannelBotRegistrationGAgent.cs:49-200 | For every command, entries and version: the version advances, by one, if and only if the command is a registration on a supported platform, a rebuild, or finds something to unregister, repair or remove; otherwise, and after a rebuild, the entries stay. |
| Registrations.RejectedExactly | agents/Aevatar.GAgents.Channel.Runtime/ChannelBotRegistrationGAgent.cs:62-83 | A registration on a supported platform is committed as a rejection if and only if its scope is blank, and then leaves the entries. |
| Registrations.FindDropped | agents/Aevatar.GAgents.Channel.Runtime/ChannelBotRegistrationGAgent.cs:204-215 | Dropping the entry of an id leaves every other lookup and the uniqueness of ids. |
| Registrations.FindAppended | agents/Aevatar.GAgents.Channel.Runtime/ChannelBotRegistrationGAgent.cs:204-215 | Appending the entry of a new id leaves every other lookup and the uniqueness of ids. |
| Registrations.FindUpdated | agents/Aevatar.GAgents.Channel.Runtime/ChannelBotRegistrationGAgent.cs:219-244 | Editing an entry in place leaves every other lookup and the uniqueness of ids. |
| Registrations.FindWithoutIds | agents/Aevatar.GAgents.Channel.Runtime/ChannelBotRegistrationGAgent.cs:246-263 | Compaction removes exactly the listed ids. |
| Compaction.Project | agents/Aevatar.GAgents.Channel.Abstractions/Projection/PerEntryDocumentProjector.cs:59-89 | The projector loop leaves exactly the documents of a complete pass over the entries of the version. |
| Compaction.PassEffect | agents/Aevatar.GAgents.Channel.Runtime/ChannelBotRegistrationProjector.cs:29-35 | What a pass leaves for an id depends on its entry and its old document only: absent entries are left alone, tombstones delete, live entries are upserted unless refused. |
| Compaction.BlankIdsAreSkipped | agents/Aevatar.GAgents.Channel.Abstractions/Projection/PerEntryDocumentProjector.cs:64-66 | A pass writes and deletes nothing under a blank id, whatever the entries are. |
| Compaction.StepKeepsWorld | agents/Aevatar.GAgents.Channel.Runtime/ChannelRuntimeTombstoneCompactor.cs:34-78 | Every step of store, projector, compactor and failure log, replays of any failed version included, keeps the invariant that ties documents to versions, watermark and tombstones. |
| Compaction.RunKeepsWorld | agents/Aevatar.GAgents.Channel.Runtime/ChannelRuntimeTombstoneCompactor.cs:34-78 | The invariant holds in every reachable state, with skipped versions, abandoned passes and any replays. |
| Compaction.RunKeepsSafe | src/Aevatar.CQRS.Projection.Core/Orchestration/ProjectionScopeGAgentBase.cs:175-191 | As long as every replay is safe where it starts, each document's id is live or has a tombstone version above the watermark. |
| Compaction.NoDocumentOutlivesCompaction | agents/Aevatar.GAgents.Channel.Runtime/ChannelRuntimeTombstoneCompactor.cs:52-71 | In every run whose replays are safe, each document's id is still in the store, live or tombstoned. |
| Compaction.CompletedPassLeaves | agents/Aevatar.GAgents.Channel.Abstractions/Projection/PerEntryDocumentProjector.cs:39-90 | In every run a completed pass leaves documents for the live entries of its version and for ids that it does not know and that had one. |
| Compaction.CompletedPassIsExact | agents/Aevatar.GAgents.Channel.Abstractions/Projection/PerEntryDocumentProjector.cs:39-90 | In every run with safe replays a completed pass of any version leaves documents for exactly its live entries, if and only if it found none for ids that its version does not know; those still have an entry in the store, so over the store's current version it is always exact. |
| Compaction.ForwardPassIsExact | agents/Aevatar.GAgents.Channel.Abstractions/Projection/PerEntryDocumentProjector.cs:39-90 | Without replays, completing the newest version begun leaves documents for exactly its live entries. |
| Compaction.TombstoneVersionsGrow | agents/Aevatar.GAgents.Channel.Runtime/ChannelBotRegistrationGAgent.cs:100-115 | Deleting an id again after a new registration gives it a strictly greater tombstone version. |
| Compaction.ContentsAreFreshExactly | src/Aevatar.CQRS.Projection.Stores.Abstractions/Abstractions/ReadModels/ProjectionWriteResultEvaluator.cs:15-35 | A completed pass brings a live entry's document up to date if and only if it had none or one at most one version behind. |
| Compaction.GapHealsExactly | src/Aevatar.CQRS.Projection.Stores.Abstractions/Abstractions/ReadModels/ProjectionWriteResultEvaluator.cs:31-32 | While its entry lives, a document keeps its contents through any passes if and only if none of them is over exactly the version after its own: only a replay of the missed version heals a gap. |
| Compaction.GaplessPass | agents/Aevatar.GAgents.Channel.Abstractions/Projection/PerEntryDocumentProjector.cs:59-89 | A pass over the next version turns an exact set of documents into the exact one of that version. |
| Compaction.GaplessProjectionIsExact | agents/Aevatar.GAgents.Channel.Abstractions/Projection/PerEntryDocumentProjector.cs:39-90 | A projector that skips no version shows exactly the live entries with their current contents, in every run. |
| Compaction.ReplayIsSafeExactly | src/Aevatar.CQRS.Projection.Core/Orchestration/ProjectionScopeGAgentBase.cs:95-104 | In every reachable state: no continuation with safe replays leaves an orphaned document after a replay, if and only if everything live at the replayed version is live in the store or has a tombstone version above the watermark. |
| Compaction.UnsafeReplayOrphans | src/Aevatar.CQRS.Projection.Core/Orchestration/ProjectionScopeGAgentBase.cs:175-191 | After any other replay the projector's pass and one round of the compactor leave an orphan, without a further replay. |
| Compaction.OrphanStays | agents/Aevatar.GAgents.Channel.Abstractions/Projection/PerEntryDocumentProjector.cs:59-89 | No pass over a version that does not know the id removes its document. |
| Compaction.ReplayResurrects | src/Aevatar.CQRS.Projection.Core/Orchestration/ProjectionScopeGAgentBase.cs:175-191 | A concrete run of registration, failed pass, removal and complete pass after which a replay, made while the tombstone is still in the store, and one compaction leave the document for good. |
| Compactor.RunOnce | agents/Aevatar.GAgents.Channel.Runtime/ChannelRuntimeTombstoneCompactor.cs:34-50 | A round dispatches exactly the commands of its targets in order and stops early if and only if one is cancelled. |
| Compactor.Compact | agents/Aevatar.GAgents.Channel.Runtime/ChannelRuntimeTombstoneCompactor.cs:52-78 | A target gets a command exactly when its watermark is known and positive and no earlier call ends badly. |
| Compactor.RoundExactly | agents/Aevatar.GAgents.Channel.Runtime/ChannelRuntimeTombstoneCompactor.cs:34-71 | A round sends, in order, one command to each target up to the first cancelled one whose watermark is known and positive, whose actor could be ensured, and whose dispatch returned or was sent all the same. |
| Compactor.TargetsAreIsolated | agents/Aevatar.GAgents.Channel.Runtime/ChannelRuntimeTombstoneCompactor.cs:38-48 | A failing target does not change what the others get. |
| Compactor.CommandsCarryWatermarks | agents/Aevatar.GAgents.Channel.Runtime/ChannelRuntimeTombstoneCompactor.cs:54-67 | Every command carries the positive watermark that was read for its own target. |
| OutputChunker.SplitRaw | agents/Aevatar.GAgents.Scheduled/SkillRunnerOutputChunker.cs:74-114 | The loop cuts exactly the texts of the greedy split. |
| OutputChunker.Split | agents/Aevatar.GAgents.Scheduled/SkillRunnerOutputChunker.cs:43-72 | The rendered chunks are the raw ones with their markers, or the output itself when it fits. |
| OutputChunker.RenderParts | agents/Aevatar.GAgents.Scheduled/SkillRunnerOutputChunker.cs:62-71 | Each chunk but the first gets the prefix, each but the last the suffix, with its number and the total. |
| OutputChunker.PiecesConserve | agents/Aevatar.GAgents.Scheduled/SkillRunnerOutputChunker.cs:74-114 | The raw chunks with what was dropped after each reproduce the input. |
| OutputChunker.PiecesFit | agents/Aevatar.GAgents.Scheduled/SkillRunnerOutputChunker.cs:98-111 | Every raw chunk is non-empty and within budget, and only paragraph breaks are dropped. |
| OutputChunker.ChunksReassemble | agents/Aevatar.GAgents.Scheduled/SkillRunnerOutputChunker.cs:43-72 | Every rendered chunk is a raw text between markers that carry the number of its part and the total; taking the markers off and putting the dropped paragraph breaks back gives the output, in order. |
| OutputChunker.TwoStepsExceedBudget | agents/Aevatar.GAgents.Scheduled/SkillRunnerOutputChunker.cs:96-111 | Two consecutive non-final steps consume more than one budget. |
| OutputChunker.ChunkCount | agents/Aevatar.GAgents.Scheduled/SkillRunnerOutputChunker.cs:74-114 | An input of length L cut with budget B gives N chunks with L <= N * B, N <= 2 * ((L - 1) / (B + 1)) + 2, and at least one character more than the budget for every two of them. |
| OutputChunker.AtLeastTwo | agents/Aevatar.GAgents.Scheduled/SkillRunnerOutputChunker.cs:57-60 | An output over the cap gives at least two chunks. |
| OutputChunker.MarkerLength | agents/Aevatar.GAgents.Scheduled/SkillRunnerOutputChunker.cs:27-28 | Each marker takes 24 characters and the digits of its two numbers. |
| OutputChunker.RenderedLength | agents/Aevatar.GAgents.Scheduled/SkillRunnerOutputChunker.cs:63-69 | A rendered chunk is its raw text plus exactly the overhead of its markers. |
| OutputChunker.ReserveIsTight | agents/Aevatar.GAgents.Scheduled/SkillRunnerOutputChunker.cs:35-35 | Inner parts with three-digit numbers use the reserve of 60 characters up exactly. |
| OutputChunker.ReserveSufficesExactly | agents/Aevatar.GAgents.Scheduled/SkillRunnerOutputChunker.cs:35-35 | The reserve is enough for the markers of every part if and only if there are at most 999 parts. |
| OutputChunker.RenderedChunksFit | agents/Aevatar.GAgents.Scheduled/SkillRunnerOutputChunker.cs:51-71 | Every rendered chunk of an output that splits into at most 999 parts fits the cap. |
| OutputChunker.GuaranteedLengthExactly | agents/Aevatar.GAgents.Scheduled/SkillRunnerOutputChunker.cs:43-72 | With the repository's cap, every output of up to n characters is delivered within it if and only if n < 500 * 29,941. |
| OutputChunker.CombPieces | agents/Aevatar.GAgents.Scheduled/SkillRunnerOutputChunker.cs:74-114 | An input of n units that take two pieces each and one unbroken unit gives 2 * n + 2 pieces, the last but one as long as the budget: the fewest characters for so many. |
| OutputChunker.ThousandPartsOverflow | agents/Aevatar.GAgents.Scheduled/SkillRunnerOutputChunker.cs:30-35 | An unbroken output of a thousand budgets overflows the cap by two characters in part 101. |
| CommandTokens.Tokenize | agents/Aevatar.GAgents.Channel.Runtime/ChannelTextCommandParser.cs:5-45 | The quote-state loop returns exactly the tokens of the recursive scan. |
| CommandTokens.FlushToken | agents/Aevatar.GAgents.Channel.Runtime/ChannelTextCommandParser.cs:70-77 | A token under construction is appended unless it is empty, and emptied. |
| CommandTokens.ParseNamedArguments | agents/Aevatar.GAgents.Channel.Runtime/ChannelTextCommandParser.cs:47-68 | The loop leaves the map of the last value for each case-folded key. |
| CommandTokens.NamedArgumentsExactly | agents/Aevatar.GAgents.Channel.Runtime/ChannelTextCommandParser.cs:47-68 | For any tokens, key and value: the arguments hold the value if and only if the last token that is `name=text` with a name equal to the key, without case, has it as its trimmed text. |
| CommandTokens.ScanSplits | agents/Aevatar.GAgents.Channel.Runtime/ChannelTextCommandParser.cs:14-41 | Scanning a text in two parts is scanning it at once, from the state that the first part leaves. |
| CommandTokens.SplitsAtSpace | agents/Aevatar.GAgents.Channel.Runtime/ChannelTextCommandParser.cs:24-28 | White space outside quotes makes the tokens of both sides independent. |
| CommandTokens.TokensAreNonEmpty | agents/Aevatar.GAgents.Channel.Runtime/ChannelTextCommandParser.cs:70-77 | No token is empty. |
| CommandTokens.TokensKeepCharacters | agents/Aevatar.GAgents.Channel.Runtime/ChannelTextCommandParser.cs:5-45 | The characters of the tokens in order are the text without delimiting quotes and unquoted white space. |
| CommandTokens.QuotingRoundTrip | agents/Aevatar.GAgents.Channel.Runtime/ChannelTextCommandParser.cs:5-45 | Quoting every character of every token tokenizes back to the same list if and only if no token is empty. |
| WorkflowCommands.PrintedCommandParses | agents/Aevatar.GAgents.Authoring.Lark/FeishuCardHumanInteractionPort.cs:473-495 | A command printed without an argument parses to the request's ids with the verdict of its verb. |
| WorkflowCommands.PrintedArgumentParses | agents/Aevatar.GAgents.Authoring.Lark/FeishuCardHumanInteractionPort.cs:112-127 | A command printed with a double-quoted argument parses to the same ids, the right verdict and the trimmed value in the right fields. |
| WorkflowCommands.LegacyMarkdownNeverRoundTrips | agents/Aevatar.GAgents.Authoring.Lark/FeishuCardHumanInteractionPort.cs:508-517 | The backslash-quoted fallback lines never parse to the advertised value: it arrives between two backslashes. |
| WorkflowCommands.IntendedFromArguments | agents/Aevatar.GAgents.Scheduled/ChannelWorkflowTextRouting.cs:12-146 | From the tokens and named arguments of a printed line the router builds exactly the intended resume command. |
| WorkflowCommands.ResumeCommandExactly | agents/Aevatar.GAgents.Scheduled/ChannelWorkflowTextRouting.cs:12-67 | Any text is a resume command if and only if its first token is a verb and the three ids are given; then every field, the metadata included, is the one that the arguments give. |
| WorkflowCommands.FeedbackExactly | agents/Aevatar.GAgents.Scheduled/ChannelWorkflowTextRouting.cs:129-148 | For any arguments: the feedback is the trimmed value of the first of the verdict's keys that is not blank, and none if and only if all are. |
| WorkflowCommands.UserInputExactly | agents/Aevatar.GAgents.Scheduled/ChannelWorkflowTextRouting.cs:90-127 | For any arguments: the user input is the edited content when that is given and approved, otherwise the trimmed value of the first of the verdict's keys that is not blank, and none if and only if all are. |
| WorkflowCommands.TokensOfLine | agents/Aevatar.GAgents.Scheduled/ChannelWorkflowTextRouting.cs:19-23 | The tokens of a printed line are the verb and the three id arguments. |
| WorkflowCommands.ArgumentOf | agents/Aevatar.GAgents.Channel.Runtime/ChannelTextCommandParser.cs:54-64 | A printed key=value token stores the trimmed value under its key, and nothing when the value is empty. |
| StepMigration.IdempotentExactly | tools/migrate_legacy_workflows.py:328-406 | Normalizing a step twice is normalizing it once if and only if the step has an id of its own or the fallback id is non-blank and stripped. |
| StepMigration.NormalizeStepIsIdempotent | tools/migrate_legacy_workflows.py:328-406 | Under that condition a second pass changes nothing, whatever is nested in the step and whatever fallback id it gets. |
| StepMigration.SecondPassChangesId | tools/migrate_legacy_workflows.py:332-335 | Otherwise the second pass changes the id. |
| StepMigration.StepsAreConserved | tools/migrate_legacy_workflows.py:385-401 | Every mapping reached through children, steps or step gives exactly one output step, in document order, with all that it declared. |
| StepMigration.OnlySchemaKeys | tools/migrate_legacy_workflows.py:328-406 | A normalized step has no keys but the ten of the target schema. |
| StepMigration.StepReadsBack | tools/migrate_legacy_workflows.py:328-406 | Reading a written clean step gives it back, whatever fallback id is offered. |
| StepMigration.LegacyFieldsWin | tools/migrate_legacy_workflows.py:346-363 | A step gets a text as a parameter if and only if the last legacy field of that name has it, or none has the name and the last raw parameter of that name has it; it gets none if and only if neither has the name. |
| StepMigration.LastBranchWins | tools/migrate_legacy_workflows.py:146-176 | Branches, as a dict or a list, become the dict from each condition to the target of the last entry that leads anywhere from it, with conditions and targets read from the fields by position; no other condition is there. |
| StepMigration.FirstRoleWins | tools/migrate_legacy_workflows.py:337-344 | The target role is the text of the first of target_role, role and agent that is not blank. |
| Yaml.ReadMappingValueExactly | tools/migrate_legacy_workflows.py:146-151 | For any mapping and names: the value of the last field whose key is, without case, the first of the names that any key is; nothing if and only if no key is one of them. |
| Yaml.IntLikeExactly | tools/migrate_legacy_workflows.py:105-119 | A text is read as a number if and only if it is, between white space, an optional minus sign and the digits of the number, with any zeros before them. |
| Yaml.NumeralReadsBack | tools/migrate_legacy_workflows.py:93-102 | A number written as text is read back. |
| JsonReading.JsonReadsBack | tools/migrate_legacy_workflows.py:93-102 | Nested values under a legacy key lose nothing: the JSON text of any list or dict without floats reads back as it was, its keys as their texts. |
| JsonReading.CharsReadBack | tools/migrate_legacy_workflows.py:93-102 | Any text survives the escapes of JSON. |
| StepMigration.CleanBranchesAreStable | tools/migrate_legacy_workflows.py:154-176 | A dict of stripped, non-blank branches is kept as it is, in order. |
| StepMigration.CleanParametersAreStable | tools/migrate_legacy_workflows.py:346-363 | A dict of texts with stripped, non-blank keys is kept as it is, in order. |
| StepMigration.RetryReadsBack | tools/migrate_legacy_workflows.py:179-192 | A written retry block reads back unchanged, present fields and absent ones. |
| StepMigration.OnErrorReadsBack | tools/migrate_legacy_workflows.py:195-208 | A written on_error block reads back unchanged. |
| StepMigrator.ReadBranches | tools/migrate_legacy_workflows.py:154-176 | The loops over a dict or a list of branches build exactly the specified dict. |
| StepMigrator.CollectParameters | tools/migrate_legacy_workflows.py:346-363 | The two loops build the parameters in the specified order of precedence. |
| StepMigrator.WriteStep | tools/migrate_legacy_workflows.py:335-406 | Assigning the keys one by one builds the dict of exactly the present fields in schema order. |
| StepMigrator.MigrateStep | tools/migrate_legacy_workflows.py:328-406 | The recursive build returns exactly the normalized step. |
| StepMigrator.MigrateChildren | tools/migrate_legacy_workflows.py:385-398 | The children are collected from children, then steps, then step. |
| StepMigrator.MigrateList | tools/migrate_legacy_workflows.py:386-392 | Every mapping of the list is normalized with its one-based position in the fallback id; other items are skipped but counted. |
| RoleMigration.BuildRoles | tools/migrate_legacy_workflows.py:297-325 | The two loops with their set of seen keys build exactly the specified roles. |
| RoleMigration.RolesAre | tools/migrate_legacy_workflows.py:297-325 | No two role ids are equal ignoring case, and up to case the ids are those declared and those collected. |
| RoleMigration.RoleReadsBack | tools/migrate_legacy_workflows.py:235-294 | A written role reads back with the same id and name, and unchanged if and only if no optional field is one that a second pass drops. |
| RoleMigration.ExtraIsIdempotent | tools/migrate_legacy_workflows.py:249-292 | Normalizing an optional role field twice is normalizing it once. |
| RoleMigration.DerivedRoleIsUnstable | tools/migrate_legacy_workflows.py:317-323 | A made-up role carries an empty prompt, which a second pass drops. |
| RoleMigration.TitleIsClean | tools/migrate_legacy_workflows.py:139-143 | The title made from a stripped, non-blank role id is stripped and non-blank. |
| RoleMigration.TitleKeepsLetters | tools/migrate_legacy_workflows.py:139-143 | The title of any role id has its characters but separators, in order, up to the case of letters. |
| RoleMigration.TitleIsTitleCase | tools/migrate_legacy_workflows.py:139-143 | A title has words that begin with a capital and go on in lower case, with one space between them; only an id of nothing but separators is kept as it is. |
| RoleMigration.RoleIsKeptExactly | tools/migrate_legacy_workflows.py:235-247 | An entry is a role if and only if it is a mapping with an id or a name; a missing id is the name, and a missing name has the letters of the id. |
| RoleMigration.ConnectorsAreKept | tools/migrate_legacy_workflows.py:275-280 | Connectors are kept if and only if they are a list with a text that is not blank, and then exactly those texts are. |
| RoleMigration.ExtensionsAreKept | tools/migrate_legacy_workflows.py:282-292 | Extensions are kept if and only if they are a mapping in which one of the two texts is not blank, and then read back as those texts. |
| RoleMigration.TextsAndNumbersAreKept | tools/migrate_legacy_workflows.py:257-267 | An optional text is kept if and only if it is not blank, an optional number if and only if it can be read as one. |
| WorkflowMigration.CollectFromStep | tools/migrate_legacy_workflows.py:211-232 | The recursive collection adds exactly the stripped text references of the step and everything nested in it. |
| WorkflowMigration.CollectFromList | tools/migrate_legacy_workflows.py:220-224 | The loop over nested steps adds what each of them names. |
| WorkflowMigration.CollectedAgain | tools/migrate_legacy_workflows.py:211-232 | A second pass would collect exactly the roles that the first pass's input targets. |
| WorkflowMigration.TextRefsAreCollected | tools/migrate_legacy_workflows.py:215-218 | Where references are texts or absent, every target role is collected. |
| DocumentMigration.Migrate | tools/migrate_legacy_workflows.py:423-455 | The document is built from its parts, or refused when it is not a mapping. |
| DocumentMigration.RoleClosure | tools/migrate_legacy_workflows.py:423-455 | When role references are texts or absent, every target role anywhere in the output equals, ignoring case, exactly one role id. |
| DocumentMigration.ClosedExactly | tools/migrate_legacy_workflows.py:423-455 | For any document the output is closed if and only if every target role was declared or collected. |
| DocumentMigration.ConfigurationExactly | tools/migrate_legacy_workflows.py:409-420 | The configuration is kept if and only if it is a boolean or, in any letter case and between white space, the text of one. |
| DocumentMigration.NumberedRoleIsDangling | tools/migrate_legacy_workflows.py:215-218 | A document whose step says `target_role: 5` gets a target role without a role. |
| SecondPass.SecondPassIsIdleExactly | tools/migrate_legacy_workflows.py:423-455 | Migrating a migrated document again changes nothing if and only if its name was settled and every role that its steps name is declared. |
| SecondPass.SecondRolesAreSameExactly | tools/migrate_legacy_workflows.py:297-325 | Written roles are kept if and only if none has a field that is dropped and no further name is collected. |
| SecondPass.RolesAreStableExactly | tools/migrate_legacy_workflows.py:312-323 | The roles of a migrated document are read back as they were if and only if none was made up. |
| SecondPass.DerivedAtTheEnd | tools/migrate_legacy_workflows.py:312-323 | Made-up roles come after the declared ones, and none of them is read back as it was. |
| RoleMigration.NoneAddedExactly | tools/migrate_legacy_workflows.py:301-324 | Going through entries adds no role if and only if each of them has a key that was seen. |
| RoleMigration.AddFirstAppends | tools/migrate_legacy_workflows.py:301-324 | Roles are only added at the end, each from one of the entries. |
| SkillRunner.RetriesAreBounded | agents/Aevatar.GAgents.Scheduled/SkillRunnerGAgent.cs:184-256 | Over every run executions plus the weight of outstanding retries stay within what the original triggers grant, whichever calls throw and whichever callbacks fire between them. |
| SkillRunner.ExecutionsPerTrigger | agents/Aevatar.GAgents.Scheduled/SkillRunnerGAgent.cs:227-231 | From a new runner, over every run: at most Max + 1 executions for each original trigger, and one more for each attempt below zero that such a trigger claims. |
| SkillRunner.OriginalsAreDelivered | agents/Aevatar.GAgents.Scheduled/SkillRunnerGAgent.cs:184-186 | The original triggers counted are those that the run delivered and that were no retries. |
| SkillRunner.FieldsRecordTheLog | agents/Aevatar.GAgents.Scheduled/SkillRunnerGAgent.cs:783-855 | In every reachable state the error count is the number of failures since an execution last completed, and the last run, next run, schedule and switch are what the calls that took effect stored last. |
| SkillRunner.TriggerFollowsPlan | agents/Aevatar.GAgents.Scheduled/SkillRunnerGAgent.cs:185-256 | Whatever throws or fires: a trigger awaits the calls of the try in order up to the first that throws, and then those of the recovery, a retry while there are any left and otherwise the failure and the next schedule. |
| SkillRunner.HandlersFollowPlans | agents/Aevatar.GAgents.Scheduled/SkillRunnerGAgent.cs:146-295 | The other handlers await exactly the calls of their plans in order, up to the first that throws. |
| SkillRunner.ReplacementIsReachedExactly | src/Aevatar.Foundation.Runtime/Callbacks/InMemoryActorRuntimeCallbackScheduler.cs:20-101 | A callback that replaces an armed one is reached by no lease on its predecessors; one that replaces none is the first again, and a lease on an earlier first one reaches it. |
| SkillRunner.ForgottenExactly | agents/Aevatar.GAgents.Scheduled/SkillRunnerGAgent.cs:258-264 | A lease is forgotten if and only if cancelling it returned. |
| SkillRunner.KeptExactly | agents/Aevatar.GAgents.Scheduled/SkillRunnerGAgent.cs:245-256 | A retry's lease is kept if and only if arming it returned, and names the callback that was armed. |
| SkillRunner.TriggerSpends | agents/Aevatar.GAgents.Scheduled/SkillRunnerGAgent.cs:185-243 | One trigger executes once when enabled and never costs more than its weight, even when a step after the completed event throws. |
| SkillRunner.NothingRunsWhileDisabled | agents/Aevatar.GAgents.Scheduled/SkillRunnerGAgent.cs:187-191 | Until a runner is enabled again nothing executes, whatever fires or arrives. |
| SkillRunner.AliveThroughoutExactly | agents/Aevatar.GAgents.Scheduled/ChannelScheduleRunner.cs:63-87 | Over any run, whatever throws or fires and with new activations: an enabled runner with a schedule always has something armed or waiting, if and only if it does at the start and no turn kills the schedule. |
| SkillRunner.StepAliveExactly | agents/Aevatar.GAgents.Scheduled/SkillRunnerGAgent.cs:184-295 | A turn kills the schedule exactly when, by the calls that took effect, the runner is enabled with a schedule, nothing waits, nothing fired, and every callback that was or became armed was cancelled by a later call naming its generation. |
| SkillRunner.LeftArmedExactly | src/Aevatar.Foundation.Runtime/Callbacks/InMemoryActorRuntimeCallbackScheduler.cs:81-101 | A slot of the callback service is full exactly if its last arming was not followed by a cancelling of that generation. |
| SkillRunner.HandleTracks | agents/Aevatar.GAgents.Scheduled/SkillRunnerGAgent.cs:184-295 | The calls noted as having taken effect account for the runner's settings, and, when nothing fired, for what is armed. |
| SkillRunner.OneArmingIsEnough | agents/Aevatar.GAgents.Scheduled/SkillRunnerGAgent.cs:227-256 | When nothing waits or is armed at its start, and unless the trigger is out of retries, a turn leaves something armed or waiting if and only if a call that arms took effect, whether or not the exception of another escapes. |
| SkillRunner.ScheduleStaysAlive | agents/Aevatar.GAgents.Scheduled/ChannelScheduleRunner.cs:63-87 | In particular the schedule stays alive while no handler lets an exception out and the cron expression has a next occurrence. |
| SkillRunner.EscapedExceptionKillsSchedule | agents/Aevatar.GAgents.Scheduled/SkillRunnerGAgent.cs:227-231 | A run from a new runner, initialized and fired once, whose execution throws and whose retry cannot be armed: nothing is armed and nothing waits afterwards. |
| SkillRunner.RearmingKillsSchedule | agents/Aevatar.GAgents.Scheduled/SkillRunnerGAgent.cs:233-243 | A run from a new runner whose retry arms the next run, fails while storing it, cancels it again and cannot arm anew: an arming that took effect is not enough once retries are used up. |
| SkillRunner.LeasesMatchInRuns | agents/Aevatar.GAgents.Scheduled/ChannelScheduleRunner.cs:82-85 | When calls that throw have no effect, every armed callback is named by the runner's lease throughout a run, if and only if that holds at its start and every activation is safe where it comes. |
| SkillRunner.ActivationKeepsLeasesExactly | agents/Aevatar.GAgents.Scheduled/ChannelScheduleRunner.cs:49-60 | Leases match after an activation exactly when whatever was armed has fired by its end, or is a schedule callback that the activation replaced with a lease of its own; for every outcome of its calls. |
| SkillRunner.DisarmsExactly | agents/Aevatar.GAgents.Scheduled/SkillRunnerGAgent.cs:267-275 | A disable that succeeds while nothing fires takes out exactly the callbacks that the leases name, so that nothing is left armed if and only if they matched. |
| SkillRunner.DisabledButArmed | agents/Aevatar.GAgents.Scheduled/ChannelScheduleRunner.cs:49-60 | A run from a new runner, initialized, activated anew and disabled, that ends disabled with its callback armed. |
| SkillRunnerActor.SkillRunnerGAgent.Deliver | agents/Aevatar.GAgents.Scheduled/SkillRunnerGAgent.cs:184-243 | Taking the next trigger out of the stream and handling it is one step of the run. |
| SkillRunnerActor.SkillRunnerGAgent.Call | src/Aevatar.Foundation.Runtime/Callbacks/InMemoryActorRuntimeCallbackScheduler.cs:20-48 | Armed callbacks may fire before an awaited call, which takes effect unless it throws first. |
| SkillRunnerActor.SkillRunnerGAgent.TakeEffect | src/Aevatar.Foundation.Runtime/Callbacks/InMemoryActorRuntimeCallbackScheduler.cs:81-101 | Cancelling needs the armed generation, arming replaces it by the next one, and events change the state as their transitions say. |
| SkillRunnerActor.SkillRunnerGAgent.CancelRetryLeaseAsync | agents/Aevatar.GAgents.Scheduled/SkillRunnerGAgent.cs:258-264 | The retry lease is cancelled and then forgotten, if there is one. |
| SkillRunnerActor.SkillRunnerGAgent.ScheduleRetryAsync | agents/Aevatar.GAgents.Scheduled/SkillRunnerGAgent.cs:245-256 | The old retry is cancelled before the new one is armed and its lease kept. |
| SkillRunnerActor.SkillRunnerGAgent.ScheduleNextRunAsync | agents/Aevatar.GAgents.Scheduled/ChannelScheduleRunner.cs:63-87 | An enabled runner with a schedule cancels the old lease, arms the next run, keeps its lease and stores the time. |
| SkillRunnerActor.SkillRunnerGAgent.CancelAsync | agents/Aevatar.GAgents.Scheduled/ChannelScheduleRunner.cs:90-97 | The schedule lease is cancelled and then forgotten, if there is one. |
| SkillRunnerActor.SkillRunnerGAgent.HandleTriggerAsync | agents/Aevatar.GAgents.Scheduled/SkillRunnerGAgent.cs:185-243 | The handler leaves exactly the state of its turn and throws exactly when the turn does. |
| SkillRunnerActor.SkillRunnerGAgent.HandleInitializeAsync | agents/Aevatar.GAgents.Scheduled/SkillRunnerGAgent.cs:146-182 | Initialization with content stores the settings and schedules; without content it is ignored. |
| SkillRunnerActor.SkillRunnerGAgent.HandleDisableAsync | agents/Aevatar.GAgents.Scheduled/SkillRunnerGAgent.cs:267-278 | Both leases are cancelled before the disabled event is stored. |
| SkillRunnerActor.SkillRunnerGAgent.HandleEnableAsync | agents/Aevatar.GAgents.Scheduled/SkillRunnerGAgent.cs:281-295 | Enabling stores the event unless enabled already, and schedules. |
| SkillRunnerActor.SkillRunnerGAgent.OnActivateAsync | agents/Aevatar.GAgents.Scheduled/ChannelScheduleRunner.cs:49-60 | A new activation schedules only when enabled, with a schedule, and the next run is missing or past. |
| ChatHistory.AgreementAtRest | agents/Aevatar.GAgents.ChatHistory/ChatHistoryIndexGAgent.cs:19-82 | After any run, once nothing is in flight, each index lists exactly the non-empty conversations of its scope, once each, with the number of messages they hold. |
| ChatHistory.RunKeepsInv | agents/Aevatar.GAgents.ChatHistory/ChatConversationGAgent.cs:26-69 | In every reachable state the index, with the notices in flight applied, says about each conversation what it should. |
| ChatHistory.HoldsTheNewest | agents/Aevatar.GAgents.ChatHistory/ChatConversationGAgent.cs:86-108 | A conversation always holds the newest of the messages last submitted, at most 500. |
| ChatHistory.DeleteAgreesExactly | agents/Aevatar.GAgents.ChatHistory/ChatConversationGAgent.cs:51-69 | After a delete the index follows if and only if there was nothing to delete or the delete carried the conversation's own scope and id. |
| ChatHistory.LostDeleteIsNotMadeGood | agents/Aevatar.GAgents.ChatHistory/ChatConversationGAgent.cs:56-68 | After a delete that lost its scope, the index goes on listing the emptied conversation through any run of further deletes of it, commands to others and deliveries. |
| ChatHistory.NoScopeNoNotice | agents/Aevatar.GAgents.ChatHistory/ChatConversationGAgent.cs:26-69 | A command without a scope sends no notice. |
| ChatHistory.StoredMetadata | agents/Aevatar.GAgents.ChatHistory/ChatConversationGAgent.cs:86-100 | A conversation's own metadata is what was submitted, with 500 for the count when messages were dropped. |
| ChatHistory.NoticeIs | agents/Aevatar.GAgents.ChatHistory/ChatHistoryIndexGAgent.cs:57-82 | A notice changes what is listed under its own id and nothing else, and ids stay unique. |
| ChatHistoryActors.TrimMessages | agents/Aevatar.GAgents.ChatHistory/ChatConversationGAgent.cs:86-100 | Removing the oldest message as often as needed leaves the newest 500 and their count. |
| ChatHistoryActors.ChatConversationGAgent.HandleMessagesReplaced | agents/Aevatar.GAgents.ChatHistory/ChatConversationGAgent.cs:26-48 | The handler stores the trimmed messages and sends the listing to the index of a non-blank scope; without metadata it does nothing. |
| ChatHistoryActors.ChatConversationGAgent.HandleConversationDeleted | agents/Aevatar.GAgents.ChatHistory/ChatConversationGAgent.cs:51-69 | The handler empties a non-empty conversation and sends the removal to the index of a non-blank scope. |
| ChatHistoryActors.ChatHistoryIndexGAgent.HandleConversationUpserted | agents/Aevatar.GAgents.ChatHistory/ChatHistoryIndexGAgent.cs:19-25 | An upsert with an id replaces the entry of that id and puts it last. |
| ChatHistoryActors.ChatHistoryIndexGAgent.HandleConversationRemoved | agents/Aevatar.GAgents.ChatHistory/ChatHistoryIndexGAgent.cs:28-40 | A removal takes out the entry of its id, if there is one. |
| Registry.RunIs | agents/Aevatar.GAgents.Registry/GAgentRegistryGAgent.cs:81-116 | Over every run groups have distinct types, none is empty, none repeats an actor, and they hold exactly the pairs whose last command was a registration. |
| Registry.AdmissionIsExact | agents/Aevatar.GAgents.Registry/GAgentRegistryGAgent.cs:36-49 | A pair is admitted if and only if the scope is given and the last command about the pair was a registration. |
| Registry.StepIs | agents/Aevatar.GAgents.Registry/GAgentRegistryGAgent.cs:21-64 | A command changes at most whether its own pair is registered. |
| Registry.StoredExactly | agents/Aevatar.GAgents.Registry/GAgentRegistryGAgent.cs:26-30 | An event is stored if and only if it changes the set that the groups hold. |
| Registry.UnregisterIs | agents/Aevatar.GAgents.Registry/GAgentRegistryGAgent.cs:100-116 | Unregistering removes exactly its pair and drops a group that becomes empty. |
| Registry.GAgentRegistryGAgent.HandleActorRegistered | agents/Aevatar.GAgents.Registry/GAgentRegistryGAgent.cs:21-33 | The handler stores exactly the registrations of new pairs and leaves the groups that the transition makes. |
| Registry.GAgentRegistryGAgent.HandleActorUnregistered | agents/Aevatar.GAgents.Registry/GAgentRegistryGAgent.cs:52-64 | The handler stores exactly the removals of registered pairs and leaves the groups that the transition makes. |
| Registry.GAgentRegistryGAgent.Transition | agents/Aevatar.GAgents.Registry/GAgentRegistryGAgent.cs:81-116 | The edits of groups and actor lists in place are those of the specified transitions. |
| Registry.GAgentRegistryGAgent.HandleScopeResourceAdmissionRequested | agents/Aevatar.GAgents.Registry/GAgentRegistryGAgent.cs:36-49 | Admission returns where the source returns and refuses where it throws. |
| Household.ReasoningIsDebounced | agents/Aevatar.GAgents.Household/HouseholdEntity.cs:260-297 | Over every run with a clock that does not run backwards, through new activations, completed reasonings are at least 30 seconds apart, a window of T seconds holds at most T / 30 + 1, and the counter counts all. |
| Household.RunKeepsInv | agents/Aevatar.GAgents.Household/HouseholdEntity.cs:354-360 | The spacing of the timestamps and what the state remembers of them hold in every reachable state. |
| Household.ReplayRemembers | agents/Aevatar.GAgents.Household/HouseholdEntity.cs:422-429 | Applying the log again restores the last timestamp and the count, whatever the clock says meanwhile. |
| Household.WindowBound | agents/Aevatar.GAgents.Household/HouseholdEntity.cs:354-360 | A window of T seconds holds at most T / 30 + 1 of any timestamps that are 30 seconds apart. |
| Household.BoundIsTight | agents/Aevatar.GAgents.Household/HouseholdEntity.cs:354-360 | Two reasonings exactly 30 seconds apart both go through. |
| Household.ReasonsExactly | agents/Aevatar.GAgents.Household/HouseholdEntity.cs:260-363 | An answered reasoning is logged if and only if the kill switch is off, the mode is not `frozen` or `sleeping` in any letter case, fewer than three actions fall into the minute under way, and 30 seconds have passed. |
| Household.KillSwitchStops | agents/Aevatar.GAgents.Household/HouseholdEntity.cs:316-324 | After any run, settings with the kill switch on stop all reasoning until settings are stored again, through new activations too. |
| Household.KillSwitchIs | agents/Aevatar.GAgents.Household/HouseholdEntity.cs:490-497 | Whatever clock a log is applied with, the kill switch is as the last settings of the log have it. |
| Household.ModeNeverBlocks | agents/Aevatar.GAgents.Household/HouseholdEntity.cs:380-397 | In every reachable state the mode is `active` or empty, so that the checks of the mode never block. |
| Household.ReactivationRestoresExactly | agents/Aevatar.GAgents.Household/HouseholdEntity.cs:367-378 | In every reachable state a new activation gives the whole reasoning state back if and only if the clock, as read meanwhile, opens the minute window at the same event and time. |
| Household.SafetyRestoredExactly | agents/Aevatar.GAgents.Household/HouseholdEntity.cs:442-454 | For any log and any two readings of the clock: the same safety state if and only if the same action opened the minute window at the same time. |
| Household.ReplayedSafety | agents/Aevatar.GAgents.Household/HouseholdEntity.cs:442-454 | The safety state is the settings with the actions counted from the one that opened the window, at its reading; without one it depends on no clock. |
| Household.LimitedAfterReplayExactly | agents/Aevatar.GAgents.Household/HouseholdEntity.cs:341-349 | After a log applied at one instant t the action limit blocks exactly for the minute from t and exactly with three actions in the log since the settings were replaced; when their window starts later than a minute before t, their own count goes on. |
| Household.OldActionsBlock | agents/Aevatar.GAgents.Household/HouseholdEntity.cs:341-349 | Three actions ever logged, however long ago, block all reasoning in the minute after the activation; fewer do not. |
| Household.ActionCountDependsOnReplay | agents/Aevatar.GAgents.Household/HouseholdEntity.cs:442-454 | Applying the same two actions again at other clock readings gives another action count. |
| Household.HouseholdEntity.MayReason | agents/Aevatar.GAgents.Household/HouseholdEntity.cs:316-363 | The checks in order allow reasoning exactly when none of the five conditions blocks it; never with the kill switch on or in a mode that sleeps, in any letter case. |
| Household.HouseholdEntity.RunReasoningAsync | agents/Aevatar.GAgents.Household/HouseholdEntity.cs:260-297 | A completed reasoning is stored exactly when it was allowed and the model answered, stamped after the answer. |
| Household.HouseholdEntity.Transition | agents/Aevatar.GAgents.Household/HouseholdEntity.cs:422-465 | Each event changes the reasoning state as its transition says. |
| Household.HouseholdEntity.Reactivate | agents/Aevatar.GAgents.Household/HouseholdEntity.cs:367-378 | A new activation leaves the state of the log applied from the start. |

## Left out

- Endpoints, server-sent events, proxies, cards, prompts, JSON shapes, logging, dependency injection and metadata: input and output around the state machines.
- `DispatchLoopAsync` as a loop: it is cut at its awaits into the steps of the protocol, which is where others interleave with it.
- `ProcessAsync`: the gates before the turn starts, which only drop requests.
- StreamingSink.TurnStreamingReplySink.RecordDispatched: the emit counter is unbounded here and 32 bits wide in the source.
- Activation and release of projection scopes, and the actor-id conflict of document writes.
- OutputChunker.Split: characters are UTF-16 code units, so a hard split may part a surrogate pair; the unreachable single-chunk branch after the split is part of the general case.
- Letters outside ASCII: case folding and capitalizing change ASCII letters only, and only ASCII digits make numbers.
- RoleMigration.RoleReadsBack: the `temperature` of a role is left out, because parsing floating-point texts is; the order in which optional fields are written is fixed, where the source follows a set.
- RoleMigration.ExtraIsIdempotent: covers every optional role field but `temperature`, for the same reason.
- Compaction.RunKeepsWorld: which failures the scope forgets when it holds too many is left open: any may be forgotten at any time.
- DocumentMigration.Migrate: the names collected from steps may be listed in any order, where the source sorts them; nothing proved depends on it. Files, backups and YAML text are not modelled.
- YAML dates and keys that cannot be dict keys.
- JsonReading.JsonReadsBack: asks that no floats are nested, because their printed form is a parameter of the model.
- SkillRunnerActor.SkillRunnerGAgent.HandleTriggerAsync: what an execution does and its texts are left out; it is a call that returns or throws. Cron expressions are represented by the next occurrence they yield, if any.
- SkillRunner.LeasesMatchInRuns: asks that calls that throw have not taken effect, apart from those of activations, which may do either; an arming that takes effect and throws loses its lease in any handler.
- The creation of index actors, and fields of conversation metadata besides id and count.
- Household.RunKeepsInv: sensor, camera, memory and recent-action state, which reasoning checks do not read; the reasoning counter is unbounded here and 32 bits wide in the source.
- Device registration, catalogs, identity binding, diagnostics, owner and user scopes: the same patterns again, or single-branch state.
