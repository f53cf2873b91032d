# Verified model of the sync server's recovery and merge core

The repository is a Git-backed sync server for note vaults. This project models the parts of it whose
correctness is hardest to see from reading one function, and proves what they promise. Each module is
one component:

| module | component |
|---|---|
| OperationLedger, HistoryHandoff, HistorySafety, HistoryLoad, MetadataStore | finished operations move from the hot metadata file to a per-vault ledger in three durable steps; opening the store finishes what a crash interrupted |
| PreparedRecovery | operations that move `main`: a write-ahead row, a compare-and-swap on the Git ref, a metadata commit, and the startup passes |
| DeviceRows, DeviceRemoval | permanent removal of a revoked device: journal, generations, ref delete, discard grant, replayable cleanup |
| Json, FieldMerge, CanvasEntries, CanvasOrder, CanvasMerge, BasesMerge, BasesMeaning | three-way merges of JSON Canvas and Obsidian Bases files, and the text by which values are compared |
| DirectoryReplay | directory intents, their compaction, and the two snapshot implementations |
| NameText, NameRepair, LinkRewrite, LinkMeaning, RepairedLinks | the renaming plan for restricted platforms and the rewriting of links |
| RequestFence, KeyedLock, TransferSessions, EventStream | four lifecycles under any interleaving of their events |
| TimestampMerge, LineFraming | two text algorithms |

`Common` holds `Option`, `Result` and a few facts about finite sets. `dafny verify dfyconfig.toml` checks
the whole project.

## How the code is modelled

- **Durable steps.** One metadata persist, one ledger transaction and one Git ref update are atomic. A crash
  is the end of any prefix of durable steps, so a theorem about all runs is a theorem about all crashes. The
  classes `MetadataStore`, `VaultServer` and `Removal` carry a ghost record of the steps they have taken; their
  methods can write only by a step that the protocol enables, so every theorem about runs applies to them. A
  persist that fails is a crash.
- **Git** is a map of refs with compare-and-swap and the set of commits reachable from `main`.
- **Hashes** are injective: a ledger row and its canonical text are the row itself.
- **Objects** with fields that the source updates become classes; loops become methods with loops, each proved
  equal to a function whose properties are the lemmas. Object fields are maps, so the order in which a
  JavaScript object lists its keys is not part of a value. An ordered list that the source splices is a
  sequence held by an object.
- **Strings** are sequences of Unicode scalar values. Sorted loops go by code point.
- **Time** is a number; timers are events.
- **What other code must supply** is a parameter: case folding (with one stated axiom, that it leaves an
  inserted number alone), the test for a push whose merge is pending, fresh identifiers, what Git answers,
  what others do in between.

## What is false, and exactly when

Some claims one would like to make do not hold in corners of the code. For each there is an input for which it
fails and, beside it, the exact condition under which it holds.

- Opening the store recovers from a stale copy after its first recovery: with two vaults handing over at once
  the first one's descriptor comes back (`TwoPendingBlocks`, `LoadOperationalIff`). No reachable state has two
  (`ReachableInv`).
- A Git failure reported after the ref has moved makes a history restore or a conflict resolution abort a moved
  operation; the next startup blocks the vault (`AbortAfterMoveBlocks`, from any vault about to move its ref).
  Every other outcome is one that startup repairs (`RestoreHistory`, `StartupCompletes`), and the other kinds of
  operation ask where the ref is and settle at once (`SettledAsStartup`, `ApplyPlanned`).
- A number that is not finite compares equal to null (`NotANumberUnseen`), and which of two such values a merge
  keeps depends on the side: swapping the sides gives the very same value exactly when sides with one text are
  equal (`AtomicSwapsExactly`, `StableJsonCanonical`).
- The check after a Canvas merge refuses what the merge itself accepts, for base ids that the compared
  texts tell apart exactly when each side's order of the base ids, deleted ones included, differs from the base's
  and from the other's (`CheckRefusesExactly`, `OrdersRefusedExactly`): for two different deletions (`TwoDeletionsWitness`, `TwoDeletionsRefused`) and for a
  reordering against a deletion (`ReorderAgainstDeletionWitness`).
- A Canvas id with a NUL hides a reordering (`SeparatorHidesReorder`), and the empty id is never an anchor
  (`EmptyIdMisplacesAddition`); without either, the merged order follows both sides exactly when they agree
  (`FollowsBothExactlyWhenAgreed`).
- From a non-empty base, a compacted directory replay brings back what was below a directory that was deleted
  and created again (`RecreationResurfaces`, `BaseReplayExactly`).
- A Markdown link can be rewritten to text that reaches another file (`MarkdownLinkLost`). It reaches its file
  exactly when the old text or some candidate does, or no other file stands where the full path is read
  relative to the source (`LinkPreserved`, `FullPathReaches`); a wikilink always does, and so does a Markdown link
  that was read relative to its note and spells its extension (`RelativeLinkKept`, `PlannedRelativeKept`).
- A transfer session written after its sixty-fourth failed attempt (`SixtyFifthRetryUnreadable`), or completed
  at once while its retry fields are set (`ReopenedFinalizeUnreadable`), is not accepted by its own parser;
  `WritesReadable` has the exact condition. Only a record left by an earlier release gets to the second: no run
  from a new session does (`OwnWritesReadable`).

## Model

| member | source | states |
|---|---|---|
| OperationLedger.StageRows | src/server/operationHistoryStore.ts:509-526 | the inserting loop of a transaction succeeds exactly when every row decodes and meets no stored or earlier row, and then stages all of them with their counts |
| OperationLedger.CheckStored | src/server/operationHistoryStore.ts:496-502 | a replay accepts a proven batch exactly when every row of it is stored, unchanged |
| OperationLedger.VerifyTables | src/server/operationHistoryStore.ts:166-197 | the audit of a ledger's tables accepts them exactly when they are sound: rows valid, counts exact, proofs chained from generation 0 and accounting for every row |
| OperationLedger.OperationHistoryStore.CommitBatch | src/server/operationHistoryStore.ts:486-536 | one transaction: an accepted batch leaves the ledger after the batch, a refused one leaves every table as it was |
| OperationLedger.CountsAgreeIsExact | src/server/operationHistoryStore.ts:179-184 | the two-way comparison of counts passes exactly when every type and status is counted right |
| OperationLedger.CommitKeepsSound | src/server/operationHistoryStore.ts:486-536 | committing an accepted batch keeps a ledger sound, so its audit passes again |
| OperationLedger.CommitIdempotent | src/server/operationHistoryStore.ts:494-505 | a committed batch is accepted again and changes nothing |
| OperationLedger.InsertedCounts | src/server/operationHistoryStore.ts:40-53 | the counts table stays exact over a whole batch of inserts |
| HistoryHandoff.PendingAccepted | src/server/metadataStore.ts:572-602 | a batch that matches its hot rows, over a ledger at the parent generation that knows none of them, is accepted by the ledger |
| HistoryHandoff.EditedExactly | src/server/metadataStore.ts:842-880 | an edit between hand-overs changes only what it names: a started operation is added at the end with the next number and status started, a forgotten vault loses its rows, and the rest of every other vault stays |
| HistoryHandoff.RewrittenExactly | src/server/metadataStore.ts:842-880 | a rewrite changes status and text of the one operation of its vault and leaves every other row as it was |
| HistoryHandoff.EditedLast | src/server/metadataStore.ts:842-880 | a mutation makes its edits one after the other and skips none |
| HistoryHandoff.ForgottenExactly | src/server/vaultLifecycleCoordinator.ts:582-583 | a vault whose ledger is erased and which is then forgotten leaves no row, number, ledger or status behind, and every other vault keeps all of its own |
| HistoryHandoff.AccountedMove | src/server/metadataStore.ts:656-666 | dropping the batch's rows from the hot side and adding them to the ledger loses and doubles nothing |
| HistoryHandoff.WithoutCount | src/server/metadataStore.ts:656-660 | the drop removes exactly as many hot rows as the batch has |
| HistorySafety.PublishKeeps | src/server/metadataStore.ts:629-645 | writing the pending batch keeps the invariant of every vault |
| HistorySafety.CommitKeeps | src/server/metadataStore.ts:648-650 | committing it in the ledger keeps the invariant, with the rows held twice as equal copies |
| HistorySafety.FinishKeeps | src/server/metadataStore.ts:656-666 | dropping the rows and bumping the generation keeps the invariant |
| HistorySafety.StepKeepsInv | src/server/metadataStore.ts:509-666 | every durable write keeps it: with no batch pending the generations agree; with one, the ledger is at the parent or the target, with the proof exactly at the target; at most one vault hands over |
| HistorySafety.ReachableInv | src/server/metadataStore.ts:509-666 | the invariant holds in every state reachable with crashes anywhere and any number of restarts |
| HistorySafety.StepHolds | src/server/metadataStore.ts:629-666 | no durable write loses an operation of a vault that stays live |
| HistorySafety.ReachableHolds | src/server/metadataStore.ts:629-714 | over whole runs, whatever a live vault held at some point it still holds at the end |
| HistorySafety.CopiesAgree | src/server/metadataStore.ts:681-691 | rows in both places are identical copies, and only a pending batch has such rows |
| HistorySafety.RemainingAccounted | src/server/metadataStore.ts:695-714 | ledger rows and the hot rows the ledger lacks are the operations numbered 1 to next-1, each once |
| HistorySafety.ExactlyOnce | src/server/metadataStore.ts:999-1022 | every number handed out is carried by exactly one operation, hot or archived |
| HistoryLoad.RecoverVault | src/server/metadataStore.ts:596-602 | recovery of a vault with a pending batch is two enabled writes, whatever the crash left of the first |
| HistoryLoad.LoadRecovers | src/server/metadataStore.ts:509-569 | opening never fails on a reachable state, keeps the invariant and leaves an operational store |
| HistoryLoad.LoadKeepsOperations | src/server/metadataStore.ts:509-569 | opening keeps a live vault live, with exactly the operations and numbers it held |
| HistoryLoad.LoadIdempotent | src/server/metadataStore.ts:551-569 | opening an operational store writes nothing, so recovering twice is recovering once |
| HistoryLoad.LoadOperationalIff | src/server/metadataStore.ts:551-569 | with every other part of the invariant given, the loop always succeeds, but leaves an operational store exactly when at most one vault has a batch pending |
| HistoryLoad.OpensExactly | src/server/metadataStore.ts:509-569 | opening succeeds on a vault without a pending batch exactly when the ledger is there or still to be made, its own, sound, below the next number and of the metadata's generation; with one, only when the batch matches its hot rows and the ledger is at its parent, or at its target with its proof |
| HistoryLoad.RowsRefusedExactly | src/server/metadataStore.ts:509-531 | an open not refused for its rows has every row under a known vault, and every vault's rows numbered upwards below the next number; metadata of which that holds passes the test |
| HistoryLoad.TwoPendingBlocks | src/server/metadataStore.ts:551-569 | a concrete store with two pending batches that opens successfully and then refuses every operation |
| HistoryLoad.LoadVaultKeeps | src/server/metadataStore.ts:551-569 | one iteration of the loop keeps what the next one relies on, the stale copy included |
| MetadataStore.OpenVault | src/server/metadataStore.ts:551-569 | one iteration of the opening loop, equal to its specification, refusals included |
| MetadataStore.OpenVaults | src/server/metadataStore.ts:551-569 | the whole loop, every write of which continues the run |
| MetadataStore.MetadataStore.Initialize | src/server/metadataStore.ts:500-569 | opening after any run succeeds, and the disk is then operational |
| MetadataStore.MetadataStore.Mutate | src/server/metadataStore.ts:842-880 | a mutation is refused exactly while the store is not operational, with nothing written, and else leaves the edited metadata, operational again once new vaults have their ledgers |
| MetadataStore.MetadataStore.ArchiveEligible | src/server/metadataStore.ts:604-627 | on an active vault it moves as many rows as are finished and not held, 256 at most, none exactly when there is none, all of them numbered below those left; else nothing |
| MetadataStore.MetadataStore.ArchiveStartup | src/server/metadataStore.ts:740-751 | the loop ends, and then no hot row of an active vault is finished and not held |
| MetadataStore.PickedExactly | src/server/metadataStore.ts:616-625 | what one turn picks: the smaller of 256 and the number of finished rows not held, all such rows, and lower numbered than every such row left |
| MetadataStore.HandOver | src/server/metadataStore.ts:629-666 | the three writes of a hand-over follow one another and move exactly the batch |
| MetadataStore.HandOverRuns | src/server/metadataStore.ts:629-666 | each of the three writes is enabled where it happens, so a crash between any two is a crashed run |
| MetadataStore.HandedOver | src/server/metadataStore.ts:629-666 | after the third write the rows have left the hot side and joined the ledger, in order |
| MetadataStore.PickedMatches | src/server/metadataStore.ts:616-643 | the rows picked for archiving form a descriptor that its own validation accepts |
| MetadataStore.MergeCopies | src/server/metadataStore.ts:682-690 | merging by identity is refused exactly when two copies of one operation differ |
| MetadataStore.ExportComplete | src/server/metadataStore.ts:676-693 | on a reachable state an export meets no conflicting copies and names each operation of the vault once |
| MetadataStore.CountsComplete | src/server/metadataStore.ts:695-714 | the reported count of a type and status is the number of the vault's operations with them, each once |
| PreparedRecovery.StepKeepsConsistent | src/server/app.ts:4258-4304 | every step of a route of any kind, of startup, or of others between operations keeps the vault consistent: events and committed rows match one for one, and Git's main is the metadata's or the target of the row in flight, whose other refs are where it expects them |
| PreparedRecovery.StepRefines | src/server/app.ts:2060-2110 | only the compare-and-swap changes what an observer of Git sees, and it adds exactly one event |
| PreparedRecovery.RecoverInFlight | src/server/app.ts:4268-4304 | startup completes the row in flight if its ref moved and undoes it if it did not, whatever its kind |
| PreparedRecovery.RollForwardCompletes | src/server/app.ts:4395-4784 | rolling forward leaves what the interrupted route of any kind would have left, marked as reconciled |
| PreparedRecovery.SecondPassKeeps | src/server/app.ts:4268-4304 | the second pass, stopped and begun again at any row, keeps the observed events and leaves nothing unfinished |
| PreparedRecovery.ReconcileKeeps | src/server/app.ts:4258-4304 | both passes together keep the vault consistent and finish every row |
| PreparedRecovery.StartupCompletes | src/server/app.ts:4258-4304 | after startup every operation is wholly there or wholly absent, the events are what Git showed, metadata main equals Git main, and a second startup changes nothing |
| PreparedRecovery.StartupRows | src/server/app.ts:4258-4265 | for every vault and row, consistent or not: startup aborts a started row, leaves no row started, and does not touch a committed or aborted one |
| PreparedRecovery.MovedRowExactly | src/server/app.ts:4268-4293 | a prepared row whose every target is where Git is: committed with one event, its target and the reconciled mark when it moves main from where the metadata has it; aborted when it is maintenance; else the vault is blocked; no other row changes |
| PreparedRecovery.UnmovedRowExactly | src/server/app.ts:4268-4304 | any other prepared row: aborted when each ref it waits for is where the row expects it, blocked when one is not |
| PreparedRecovery.TargetsExactly | src/server/app.ts:4305-4336 | the target of each ref: the manifest's, else the row's, else for three kinds the target commit as main; in each case only a full hexadecimal name |
| PreparedRecovery.CheckDuring | src/server/app.ts:4074-4094 | between the steps of an operation the integrity check blocks exactly a vault whose ref has moved, its row still prepared, when that row is not live |
| PreparedRecovery.ExcusedExactly | src/server/app.ts:4074-4094 | on any vault the check passes exactly when Git agrees, or some prepared row was to take main from what the metadata has to what Git has, while live |
| PreparedRecovery.RunRefines | src/server/app.ts:2023-2110 | over any run the observed mains are the compare-and-swaps that succeeded, in order |
| PreparedRecovery.RunThenStartup | src/server/app.ts:4258-4784 | after any run of operations, crashes and restarts, then a startup, there is exactly one event for each successful compare-and-swap and each committed row |
| PreparedRecovery.RouteRuns | src/server/syncService.ts:2251-2336 | the durable writes of a main-moving operation are enabled one after the other: four, or three where the commit is made before the row |
| PreparedRecovery.CrashAnywhere | src/server/syncService.ts:2251-2336 | a merge, resolution, restore, name repair or change of settings that crashes after any number of its writes, then a startup: before the ref moved it is as if it never ran, from then on as if it completed, with exactly one event and the other refs untouched |
| PreparedRecovery.SecondPassSettles | src/server/app.ts:4268-4304 | on any rows and refs whatsoever, a vault left unblocked has no prepared row |
| PreparedRecovery.StartupAgreesOrBlocks | src/server/app.ts:3962-3971 | on any rows and refs, startup leaves the vault blocked or agreeing with Git, although a live prepared row may excuse a difference |
| PreparedRecovery.ForeignRefBlocks | src/server/app.ts:4273-4303 | with its target recorded, a row in flight is blocked exactly when main holds neither value it names; before that, exactly when any ref is not where it expects it; and then nothing else changes |
| PreparedRecovery.SettledAsStartup | src/server/syncService.ts:2302-2315 | after a Git failure a merge, name repair or change of settings goes on to commit if the ref moved and gives up if it did not, which leaves the vault at rest with the events Git showed |
| PreparedRecovery.AbortAfterMoveBlocks | src/server/app.ts:2062-2065 | a route that aborts after the ref in fact moved leaves a vault that startup blocks |
| PreparedRecovery.VaultServer.Write | src/server/app.ts:2688-2705 | one durable write extends the run and nothing else |
| PreparedRecovery.VaultServer.RestoreHistory | src/server/app.ts:2023-2110 | the history restore: refused for a stale main, complete on success, undone on a Git failure before the ref moved, an aborted row over a moved ref on one after it, and on a crash the state after exactly the writes made |
| PreparedRecovery.VaultServer.ApplyPlanned | src/server/syncService.ts:523-560 | a name repair or change of settings: refused for a stale main, complete whenever the ref moved, undone when it did not, and no outcome leaves the protocol |
| PreparedRecovery.VaultServer.ReconcileRow | src/server/app.ts:4258-4304 | one row of either pass, equal to its specification, and a step of the protocol on a vault that followed it |
| PreparedRecovery.VaultServer.StartUp | src/server/app.ts:4258-4304 | the two passes as loops and the integrity check, on any vault at all: every started row ends aborted and none is left started, finished rows are as they were, a prepared row is left only in a blocked vault; a vault that followed the protocol still does |
| DeviceRows.KeepTwice | src/server/deviceRemovalService.ts:502-514 | filtering twice is filtering once by both tests, order kept |
| DeviceRows.SweepAbsorbed | src/server/deviceRemovalService.ts:517-530 | whatever one sweep erases, the completing commit would have erased |
| DeviceRows.CleanupReplays | src/server/deviceRemovalService.ts:516-558 | whichever sweeps were made, in whatever order and however often, the completing commit leaves the same rows |
| DeviceRows.ClearedExactly | src/server/deviceRemovalService.ts:533-543 | the completing commit keeps exactly the rows that name neither the device nor a connection it created |
| DeviceRows.SweepExactly | src/server/deviceRemovalService.ts:517-530 | each sweep erases its own part of that and nothing else |
| DeviceRemoval.StepKeepsInv | src/server/deviceRemovalService.ts:97-558 | every step, of the service or of others, keeps it: the journal's grant is the latest request's, a deleting journal has a commit, cleanup follows a proved absence, a recorded ref is missing only under a journal |
| DeviceRemoval.RunKeepsInv | src/server/app.ts:4019-4031 | so it holds in every run, crashes included: a missing device ref with a recorded head implies a journal |
| DeviceRemoval.DeletesAcceptedOnly | src/server/deviceRemovalService.ts:210-249 | in any run a ref delete hits the commit journalled for the generation, and that commit and every staged one are in main's history unless the latest request granted the discard |
| DeviceRemoval.ErasesAcceptedOnly | src/server/deviceRemovalService.ts:444-453 | staged transfers are erased only when in main's history or granted, and after a proved absence of the ref |
| DeviceRemoval.GenerationBindsOid | src/server/deviceRemovalService.ts:477-483 | within a generation the expected commit never changes, and generations never go back |
| DeviceRemoval.StaysRemoved | src/server/deviceRemovalService.ts:533-545 | once removed a device stays removed |
| DeviceRemoval.CompletesProvedOnly | src/server/deviceRemovalService.ts:533-558 | in any run the device is erased only from cleanup, with the absence of its ref proved, under the latest request's grant; a missing ref is accepted only under an intent with the grant |
| DeviceRemoval.AbsenceProved | src/server/deviceRemovalService.ts:435-500 | where a run has the absence proved, a ref delete or a strict read proved it, the ref was gone right then, and no ref was begun since |
| DeviceRemoval.TakenUp | src/server/deviceRemovalService.ts:274-313 | a journal taken up has no failure left, can be retried, and on a request has exactly that request's grant |
| DeviceRemoval.StagedVerdict | src/server/deviceRemovalService.ts:226-249 | the gate on staged transfers passes exactly with the grant, or when every staged commit can be traced into main |
| DeviceRemoval.Removal.DeleteRefCas | src/server/gitService.ts:401-415 | deleted only what was expected, moved only when the ref holds another commit, absent only when it does not exist |
| DeviceRemoval.Removal.Gate | src/server/deviceRemovalService.ts:210-249 | the two gates with the grant of the journal |
| DeviceRemoval.Removal.Rebind | src/server/deviceRemovalService.ts:474-483 | a moved ref opens a generation for what was read, three times at most |
| DeviceRemoval.Removal.ResumeAbsent | src/server/deviceRemovalService.ts:444-453 | with the ref gone past the intent, only the staged gate decides, and it goes to cleanup |
| DeviceRemoval.Removal.AcceptMissing | src/server/deviceRemovalService.ts:455-473 | a recorded ref that is gone under an intent is accepted exactly with the grant and no open work |
| DeviceRemoval.Removal.Enter | src/server/deviceRemovalService.ts:484-498 | eligibility is checked for the commit the generation expects before the delete is entered or resumed |
| DeviceRemoval.Removal.Delete | src/server/deviceRemovalService.ts:494-498 | cleanup is entered only after a delete that happened or a proved absence, whatever others did since the gate |
| DeviceRemoval.Removal.TryDelete | src/server/deviceRemovalService.ts:437-499 | one turn of the loop; undisturbed, with nothing unaccepted to lose, it reaches cleanup |
| DeviceRemoval.Removal.DeleteRefStep | src/server/deviceRemovalService.ts:435-500 | a run opens at most three generations by ref moves and ends in cleanup only with the gates passed; when nothing disturbs its first attempt and the work is in main or granted, it does end there |
| DeviceRemoval.Removal.CleanupAndComplete | src/server/deviceRemovalService.ts:516-558 | sweeps and completing commit are made one after the other, as many as the crash point allows; device row and journal disappear together, with every row that names the device; stopped earlier, the completing commit would still leave the same rows |
| DeviceRemoval.Removal.Drive | src/server/deviceRemovalService.ts:316-331 | a failure is recorded, retryable exactly for the listed causes, and keeps the journal; success removes the device, and is what comes of an undisturbed drive over work in main or granted |
| DeviceRemoval.Removal.Resume | src/server/deviceRemovalService.ts:124-150 | at startup a journal that waits for the owner is left alone, exactly then, and no grant changes; any other one, undisturbed over work in main or granted, ends with the device removed |
| DeviceRemoval.Removal.VerifyForIntent | src/server/deviceRemovalService.ts:251-263 | undisturbed, a request passes exactly with the ref's commit and the staged ones in main's history or its own discard, a device that never recorded a head included, and a recorded ref that is gone only with the discard; an unreadable ref is unavailable |
| DeviceRemoval.Removal.Remove | src/server/deviceRemovalService.ts:89-121 | a request's grant, or its absence, is durable before anything can refuse it; an unknown or unrevoked device is refused with nothing written, open work with only the grant; an undisturbed request whose work is in main or discarded ends with the device removed |
| Json.LeqTotal | src/server/gitService.ts:2726-2729 | the key order is total |
| Json.Sorted | src/server/gitService.ts:2726-2729 | sorting lists exactly the keys |
| Json.QuoteUnique | src/server/gitService.ts:2720-2732 | a quoted string determines its value and where it ends |
| Json.TextUnique | src/server/gitService.ts:2720-2732 | the text of a value determines the value, up to numbers that print alike, and where it ends |
| Json.StableJsonCanonical | src/server/gitService.ts:2720-2732 | two values have the same stable text exactly when they are the same value, up to those numbers |
| FieldMerge.AtomicMeaning | src/server/gitService.ts:2489-2500 | an atomic merge fails exactly when both sides changed the field differently, keeps every change, and does not depend on which side is which |
| FieldMerge.TextFields | src/server/gitService.ts:2702-2714 | records have the same text exactly when each field has |
| FieldMerge.MergeRecords | src/server/gitService.ts:2470-2487 | the loop over sorted keys, equal to its specification, stops when a field conflicts |
| FieldMerge.RecordSymmetric | src/server/gitService.ts:2470-2487 | swapping the sides merges to the same record, or refuses as well |
| FieldMerge.RecordUnit | src/server/gitService.ts:2470-2487 | with one side unchanged the record is the other side |
| FieldMerge.RecordMeaning | src/server/gitService.ts:2470-2487 | a record merge is refused exactly when both sides changed one field to different texts, and else every field changed by a side has that side's text and every other the base's |
| CanvasEntries.RefusesExactlyConflicts | src/server/gitService.ts:2171-2226 | the merge of valid entries refuses exactly a conflict: different additions, an edit against a deletion, or a field changed differently |
| CanvasEntries.KeepsEveryEdit | src/server/gitService.ts:2200-2221 | on success every field changed by a side has that side's value, and the others the base's |
| CanvasEntries.InvalidExactly | src/server/gitService.ts:1941-1950 | a merge without conflicts is refused as no valid node exactly when one of the six fields is missing from it or of the wrong kind |
| CanvasEntries.MergeUnits | src/server/gitService.ts:2179-2206 | one side unchanged gives the other; equal sides give either |
| CanvasEntries.MergeSymmetric | src/server/gitService.ts:2171-2226 | swapping the sides gives the same entry, or the mirrored refusal |
| CanvasEntries.MergedNodeValid | src/server/gitService.ts:1941-1950 | merging valid nodes gives a valid node, so that check never refuses |
| CanvasEntries.MergeCollection | src/server/gitService.ts:2154-2169 | the collection of all merged entries, or the refusal of the first id refused |
| CanvasEntries.CheckAcceptsMerge | src/server/gitService.ts:2044-2073 | the later check never refuses an entry the merge accepted |
| CanvasEntries.CheckRefusesExactly | src/server/gitService.ts:2044-2073 | on any entries the check refuses exactly a deletion against an edit, a field changed by both differently, or a field of two additions that differ |
| CanvasEntries.CheckCollection | src/server/gitService.ts:2050-2072 | the check as a loop over all ids |
| CanvasEntries.MergedKeyed | src/server/gitService.ts:2154-2169 | merged entries keep the id they are keyed by |
| CanvasOrder.SlotBetween | src/server/gitService.ts:2276-2287 | an addition goes after everything of its side that precedes it and before everything that follows |
| CanvasOrder.IntegrateFollows | src/server/gitService.ts:2265-2290 | integrating a side keeps its order followed |
| CanvasOrder.IntegrateKeepsOther | src/server/gitService.ts:2265-2290 | and the other side's, if the ids added are not the other's |
| CanvasOrder.IntegrateIds | src/server/gitService.ts:2271-2275 | exactly the merged ids that are new to the base are added, each once |
| CanvasOrder.MergedOrderExact | src/server/gitService.ts:2228-2263 | the result lists exactly the merged ids, each once, and keeps the order of surviving base ids that was chosen |
| CanvasOrder.OrderMeaning | src/server/gitService.ts:2228-2263 | for surviving base ids that the texts tell apart: no order exactly when both sides reordered them and not to the same; with one side's order the base's, the result has the other's; with both the same, that |
| CanvasOrder.SlotNearest | src/server/gitService.ts:2276-2287 | an addition stands next to the nearest id of its side that is placed already: right after the one before it, else right before the one after it |
| CanvasOrder.AdditionsInTurn | src/server/gitService.ts:2265-2290 | with nothing in the base, the server's additions come first in their order and then the device's in theirs |
| CanvasOrder.JoinUnique | src/server/gitService.ts:2716-2718 | joined with NUL, orders of ids without NUL and not empty are told apart |
| CanvasOrder.FollowsBothExactlyWhenAgreed | src/server/gitService.ts:2228-2302 | an order that follows both sides shows that they order the merged ids they share the same way; and then, with no NUL in a surviving base id and no empty merged id, the merge gives such an order |
| CanvasOrder.SeparatorHidesReorder | src/server/gitService.ts:2235-2255 | an id with a NUL makes two orders compare equal, and a side's reordering is lost |
| CanvasOrder.EmptyIdMisplacesAddition | src/server/gitService.ts:2276-2287 | next to the empty id an addition lands on its wrong side |
| CanvasOrder.CheckRefusesExactly | src/server/gitService.ts:2075-2099 | the check refuses an order the merge accepted exactly when both sides changed the order of base ids, deleted ones included, and not to the same |
| CanvasOrder.TwoDeletionsRefused | src/server/gitService.ts:2075-2099 | the merge accepts every pair of deletions, and the check refuses the result exactly when both sides deleted something and not the same ids |
| CanvasOrder.TwoDeletionsWitness | src/server/gitService.ts:2083-2098 | two deletions that merge and that the check then refuses |
| CanvasOrder.ReorderAgainstDeletionWitness | src/server/gitService.ts:2083-2098 | a reordering against a deletion that merge and that the check then refuses |
| CanvasOrder.NearestPrevious | src/server/gitService.ts:2292-2300 | the backwards search, equal to its specification |
| CanvasOrder.NearestNext | src/server/gitService.ts:2302-2310 | the forwards search, equal to its specification |
| CanvasOrder.OrderList.SpliceIn | src/server/gitService.ts:2276-2287 | one splice in place |
| CanvasOrder.OrderList.IntegrateAdditions | src/server/gitService.ts:2265-2290 | the integrating loop, equal to its specification |
| CanvasOrder.MergeCanvasOrder | src/server/gitService.ts:2228-2263 | the whole order merge as the loops compute it, equal to its specification, of which OrderMeaning and FollowsBothExactlyWhenAgreed say what it is |
| CanvasMerge.MergePart | src/server/gitService.ts:2106-2109 | nodes or edges with their order: the result lists exactly the merged entries, and a refusal means that there is no such result |
| CanvasMerge.MergeParts | src/server/gitService.ts:2101-2123 | all parts, short of the closing checks: the merge of each, or a refusal where no merge exists |
| CanvasMerge.OrdersRefusedExactly | src/server/gitService.ts:2075-2099 | for a merge of all parts, with base ids that the texts tell apart, the order checks pass exactly when neither order of base ids was changed by both sides differently |
| CanvasMerge.CheckPart | src/server/gitService.ts:2032-2042 | of the closing checks only that of the order can refuse |
| CanvasMerge.MergeCanvas | src/server/gitService.ts:2101-2129 | the merge succeeds exactly when every part merges, no merged edge dangles and the order checks pass, with a well-formed canvas; it names a dangling edge exactly when the parts merge to one, and the order checks exactly when nothing else refuses; the entry check never does |
| BasesMerge.EntrySymmetric | src/server/gitService.ts:2443-2463 | an entry of a named map merges the same with the sides swapped, refusal and place included |
| BasesMerge.ViewSymmetric | src/server/gitService.ts:2556-2597 | so does a view, with the restrictions on concurrent edits of one view |
| BasesMerge.NamedMapSymmetric | src/server/gitService.ts:2410-2441 | so does a whole named map, reporting the same first refusal |
| BasesMerge.ViewsSymmetric | src/server/gitService.ts:2526-2554 | so do the views, in the same order |
| BasesMerge.MergeIsSymmetric | src/server/gitService.ts:2356-2408 | swapping server and device gives the same canonical document or the same refusal |
| BasesMerge.NamedMapUnit | src/server/gitService.ts:2410-2463 | with one side unchanged a map merges to the other side's entries |
| BasesMerge.ViewsUnit | src/server/gitService.ts:2526-2554 | with one side unchanged the views are refused exactly for a reorder of base views, and are else the other side's in its order, additions last and sorted |
| BasesMerge.MergeUnit | src/server/gitService.ts:2356-2408 | with one side unchanged the merge is refused exactly for a view reorder, and is else the other side in every part, its views with the added ones sorted, up to absent against empty maps and views |
| BasesMerge.SideViewsComplete | src/server/gitService.ts:2526-2554 | those views are the other side's as a multiset: none lost, none doubled |
| BasesMerge.AtomicSwapsExactly | src/server/gitService.ts:2489-2500 | swapping the sides gives the very same value exactly when sides that compare equal are equal |
| BasesMerge.AtomicExactlySymmetric | src/server/gitService.ts:2489-2500 | which holds without numbers that print alike |
| BasesMerge.NotANumberUnseen | src/server/gitService.ts:2720-2732 | an edit between null and a number that is not one goes unseen, and the survivor depends on the side |
| BasesMerge.MergeNamedMapField | src/server/gitService.ts:2410-2441 | the loop over sorted entries, equal to its specification, stops at the first refusal; NamedMapMeaning says which |
| BasesMerge.MergeViewCollections | src/server/gitService.ts:2526-2554 | the loop over base and added views, equal to its specification |
| BasesMeaning.EntryRefusedExactly | src/server/gitService.ts:2443-2463 | an entry is refused exactly when both sides changed it to different texts and it is not three objects without a field changed by both differently |
| BasesMeaning.EntryKeepsEdits | src/server/gitService.ts:2443-2463 | on success an entry changed by one side alone, a deletion included, is that side's by text, and of one changed by both every field changed by a side is that side's |
| BasesMeaning.ViewRefusedExactly | src/server/gitService.ts:2556-2597 | a view is refused exactly when both sides changed it to different texts and it is missing from a side, or has a key not known, or a restricted key or any field was changed by both |
| BasesMeaning.NamedMapMeaning | src/server/gitService.ts:2410-2441 | a named map is refused exactly when some entry is, and else keeps the edits of both sides in every entry |
| BasesMeaning.ViewsMeaning | src/server/gitService.ts:2526-2554 | the views are refused exactly for a reorder or a refused view, and else keep the edits of both sides in every view |
| BasesMeaning.MergeRefusedExactly | src/server/gitService.ts:2356-2408 | the document is refused exactly when a named map, the filters, the views or another field is |
| BasesMeaning.MergeRefusedWhere | src/server/gitService.ts:2356-2408 | and the refusal names a part that is in conflict |
| BasesMeaning.MergeKeepsEdits | src/server/gitService.ts:2356-2408 | a merged document keeps, in every part, what each side changed alone |
| DirectoryReplay.ReplayMeans | src/server/app.ts:2784-2795 | replaying a compacted list in any order with ancestors first gives what it creates and what of the base no delete in it covers |
| DirectoryReplay.ReplayPlain | src/server/metadataStore.ts:1356-1372 | replaying the events gives what stands created and what of the base was never covered by a delete |
| DirectoryReplay.SnapshotsAgree | src/server/app.ts:2784-2795 | from nothing, the compacted replay equals the plain one, so both snapshot implementations agree |
| DirectoryReplay.BaseReplayExactly | src/server/app.ts:2783-2795 | from a base they agree exactly when no base directory resurfaces |
| DirectoryReplay.BaseReplayAgrees | src/server/app.ts:2783-2795 | it is enough that no directory with base directories below it is deleted and created again |
| DirectoryReplay.RecreationResurfaces | src/server/app.ts:2908-2921 | a directory deleted and created again loses what was below it in the events but not in the compaction |
| DirectoryReplay.BetweenExactly | src/server/app.ts:2874-2885 | replaying the difference of two snapshots on the first gives the second exactly when no directory of both lies below one only the first has |
| DirectoryReplay.SortedLists | src/server/app.ts:2920-2920 | sorting by path puts ancestors first |
| DirectoryReplay.CoversSegments | src/server/app.ts:2908-2921 | a path covers exactly those whose segments begin with its own, so not one that merely begins with its text |
| DirectoryReplay.DropUnder | src/server/app.ts:2912-2916 | the inner loop of the compaction |
| DirectoryReplay.CompactDirectoryIntents | src/server/app.ts:2908-2921 | the compaction as a loop over a map, equal to its specification and sorted |
| DirectoryReplay.ExplicitDirectories | src/server/metadataStore.ts:1356-1372 | the replay loop of both implementations |
| DirectoryReplay.DirectoryIntentsBetween | src/server/app.ts:2874-2885 | the difference of two snapshots as the source computes it: topmost deletes and all creates, compacted |
| NameText.SanitizedStorable | src/server/nameRepair.ts:27-44 | a rewritten segment has no reserved character and is none of the forbidden names |
| NameText.SanitizedWords | src/server/nameRepair.ts:27-35 | the rewritten text is the words left by the replacements, one space between any two and none around |
| NameText.SanitizedExactly | src/server/nameRepair.ts:37-44 | a name that cannot be stored has its stem rewritten by its words, or replaced when nothing usable is left, and keeps its extension of up to sixteen letters and digits |
| NameRepair.DirectoriesMapped | src/server/nameRepair.ts:72-88 | every directory gets an image, in the image of its parent, and no two images fold alike |
| NameRepair.ImagesFoldDistinct | src/server/nameRepair.ts:81-87 | directories whose images fold alike share one image |
| NameRepair.SuffixesApart | src/server/nameRepair.ts:46-52 | different numbers give names that stay apart when folded |
| NameRepair.SuffixSpelled | src/server/nameRepair.ts:46-52 | the number stands in brackets before the extension, or at the end of a name without one |
| NameRepair.FreeAttempt | src/server/nameRepair.ts:104-105 | the suffix search ends, at the first number whose name is free |
| NameRepair.FirstFree | src/server/nameRepair.ts:104-105 | the search as a loop |
| NameRepair.PlanSettled | src/server/nameRepair.ts:90-108 | every file gets a storable place in the image of its directory, apart under folding from every other file and every directory |
| NameRepair.UncontestedKeep | src/server/nameRepair.ts:97-101 | a file whose path needs no change keeps it unless a directory or another such file folds alike |
| NameRepair.RepairedIsPortable | src/server/nameRepair.ts:132-134 | no repaired path is unportable, so the closing check never refuses |
| NameRepair.RepairedDirectoriesHeld | src/server/nameRepair.ts:63-68 | the directories of the repaired tree are images |
| NameRepair.ReplanRenamesNothing | src/server/nameRepair.ts:58-142 | planning again on the result renames nothing |
| NameRepair.PlanDirectories | src/server/nameRepair.ts:70-88 | the loop over directories, equal to its specification |
| NameRepair.PlanFiles | src/server/nameRepair.ts:90-108 | the two passes over files, equal to their specification |
| LinkRewrite.ResolvesInside | src/server/nameRepair.ts:197-213 | a link only resolves to a path of the index |
| LinkRewrite.FullPathReaches | src/server/nameRepair.ts:279-282 | the full path reaches its file as a wikilink always, as a Markdown link exactly when no other file stands at that place relative to the source |
| LinkRewrite.LinkPreserved | src/server/nameRepair.ts:255-283 | a link that resolved before reaches the image of its file afterwards exactly when it is a wikilink, or the old text or a candidate reaches it, or the full path does; where nothing moved, nothing is replaced |
| LinkRewrite.FindReaching | src/server/nameRepair.ts:279-281 | the loop over candidates, equal to its specification |
| LinkRewrite.FirstReachingFinds | src/server/nameRepair.ts:279-281 | the search finds a candidate that resolves as intended whenever there is one |
| LinkRewrite.RewriteTarget | src/server/nameRepair.ts:255-283 | the rewriting, equal to its specification: a link that resolved nowhere is left alone, a wikilink that resolved reaches the image of its file, replaced or not |
| LinkRewrite.MarkdownLinkLost | src/server/nameRepair.ts:255-283 | a Markdown link that the rewriting turns into text that reaches another file |
| LinkMeaning.LookupExactly | src/server/nameRepair.ts:171-180 | a path is found as written, then with the extension, then as the only one that folds alike, then as the only one that does with the extension, and else not |
| LinkMeaning.SuffixExactly | src/server/nameRepair.ts:182-198 | matching by suffix finds nothing exactly when no path ends in the link at a segment, and else the one ahead of all others: in the note's directory, then by fewer segments, then by name |
| LinkMeaning.RelativeReading | src/server/nameRepair.ts:200-210 | a link that goes up and then down some names is looked up at the place that walk ends, and not at all when it leaves the vault or stops at its root |
| LinkMeaning.ResolvesExactly | src/server/nameRepair.ts:200-217 | a link resolves by the first reading that finds a path, in the order relative, full, suffix; wikilinks are read relatively only when dotted, and dotted links in no other way |
| LinkMeaning.RelativeRoundTrip | src/server/nameRepair.ts:223-226 | read from its directory, the relative link to a file is the path of the file |
| LinkMeaning.RelativeLinkIs | src/server/nameRepair.ts:223-226 | the relative link goes up as few steps as can be and then down to the file |
| LinkMeaning.RelativeReaches | src/server/nameRepair.ts:266-273 | so it reaches the file as a Markdown link, and written with a dot as a wikilink too |
| LinkMeaning.RelativeLinkKept | src/server/nameRepair.ts:255-283 | a Markdown link that was read relative to its note and spells its extension reaches its file after the repair, wherever other files went |
| LinkMeaning.TailsExactly | src/server/nameRepair.ts:274-279 | the candidates by suffix are all last parts of the new path, shortest first |
| LinkRewrite.SplitJoin | src/server/nameRepair.ts:63-68 | the text of a path determines its segments |
| RepairedLinks.PlanNamed | src/server/nameRepair.ts:127-131 | every image of the plan is made of proper segments, none empty, a dot, two dots or holding a slash |
| RepairedLinks.PlanMoves | src/server/nameRepair.ts:58-142 | the plan, as text, sends every file to a vault path and no two to the same |
| RepairedLinks.PlannedLinkReaches | src/server/nameRepair.ts:255-283 | after the planned renames a wikilink reaches, from its note's new path, the new path of the file it reached before |
| RepairedLinks.PlannedRelativeKept | src/server/nameRepair.ts:255-283 | and so does, from its note's new path, a Markdown link that was read relative to its note and spells its extension |
| RequestFence.StepKeepsInv | src/server/app.ts:301-330 | every event keeps it: all that was acquired is held or was released once, and the fence is released exactly when the request is over |
| RequestFence.ReleasedExactlyOnce | src/server/app.ts:279-382 | in any interleaving nothing is released twice or while the handler runs, all is released when the request is over, and one body at most runs |
| RequestFence.RunningKeepsFence | src/server/app.ts:301-311 | no event takes what a running handler holds, and none starts a body over a released fence |
| RequestFence.EndsOver | src/server/app.ts:324-330 | when the handler has settled, or never started and the request was aborted or answered, ending releases |
| RequestFence.StartsExactly | src/server/app.ts:344-382 | a pending handler runs exactly when its request is not aborted and its fence not released; else it is done without running |
| RequestFence.RequestFence.ReleaseFenceIfSettled | src/server/app.ts:301-311 | the release as the source tests for it |
| RequestFence.RequestFence.HoldForRequest | src/server/app.ts:312-323 | what is acquired late, twice, or by a streaming request is given back at once |
| RequestFence.RequestFence.EndRequestLifecycle | src/server/app.ts:324-330 | the end of a request |
| RequestFence.RequestFence.FencedHandler | src/server/app.ts:344-382 | the wrapper runs a body only over a held fence |
| KeyedLock.StepKeepsInv | src/server/chunkTransferService.ts:1438-1451 | arriving, starting and leaving keep it: the map holds the last tail or every call has finished |
| KeyedLock.ExclusiveInOrder | src/server/chunkTransferService.ts:1438-1451 | while a call runs, all before it have finished and all after it wait, entry removal included |
| KeyedLock.NoneStranded | src/server/chunkTransferService.ts:1438-1451 | the first waiting call can always start once those before it have finished |
| KeyedLock.NothingKept | src/server/chunkTransferService.ts:1447-1450 | the map holds no tail exactly when every call under the key has finished, and a running call can always finish |
| KeyedLock.Locks.Arrive | src/server/chunkTransferService.ts:1439-1443 | a call finds the tail under its key and leaves its own |
| KeyedLock.Locks.Begin | src/server/chunkTransferService.ts:1444-1446 | a call starts with all before it finished |
| KeyedLock.Locks.Leave | src/server/chunkTransferService.ts:1447-1450 | the entry is gone exactly when every call under the key has finished |
| TransferSessions.WritesReadable | src/server/chunkTransferService.ts:1460-1551 | a record written by a step is accepted by the parser exactly when the clock is not behind creation, an attempt is left, and an accepting immediate finalization has no retry fields |
| TransferSessions.ReopenedFinalizeUnreadable | src/server/chunkTransferService.ts:712-730 | a stored push that Git refused, opened again at startup and then finalized with success, is written as a record the parser rejects |
| TransferSessions.OwnWritesReadable | src/server/chunkTransferService.ts:831-833 | in a run from a new session nothing is opened again, and a record written is accepted exactly when the clock is not behind creation and an attempt is left |
| TransferSessions.SixtyFifthRetryUnreadable | src/server/chunkTransferService.ts:866-880 | after sixty-four retries the next one is still made, and its record is rejected |
| TransferSessions.CreatedReadable | src/server/chunkTransferService.ts:519-558 | a new session is accepted |
| TransferSessions.ChunkAccepted | src/server/chunkTransferService.ts:687-693 | storing a chunk keeps the receipts distinct, sorted in, and their total within the limit |
| TransferSessions.VerdictExactly | src/server/chunkTransferService.ts:607-697 | each verdict on a chunk exactly: closed, bad index, too large, same for a receipt that is there, conflict for another under its index, stored for a new one that fits |
| TransferSessions.SentAgain | src/server/chunkTransferService.ts:607-697 | a stored chunk sent again is the same exactly with its digest and size, and else a conflict |
| TransferSessions.NoMoreThanChunks | src/server/chunkTransferService.ts:1489-1503 | distinct indexes below the chunk count cannot outnumber the chunks |
| TransferSessions.RunReadable | src/server/chunkTransferService.ts:205-893 | every record of a run is accepted |
| TransferSessions.RunsFromNew | src/server/chunkTransferService.ts:1505-1505 | receipts stand in the order of their chunks, each once, the total is their sum, no session is processing, completed or rejected without all of them, and terminal sessions have no retry fields |
| TransferSessions.FinalStays | src/server/chunkTransferService.ts:712-720 | completed and aborted sessions never change |
| TransferSessions.RetryDelayGrows | src/server/chunkTransferService.ts:866-880 | the retry delay never shrinks, from a second up to a minute |
| TransferSessions.RetryDelayDoubles | src/server/chunkTransferService.ts:866-880 | it starts with a second and doubles up to the minute |
| TransferSessions.TransferService.PutChunk | src/server/chunkTransferService.ts:607-697 | the verdict on a chunk and the record it leaves |
| TransferSessions.TransferService.Transition | src/server/chunkTransferService.ts:699-893 | any other step applies exactly when enabled, and never to a final session |
| EventStream.StepKeepsInv | src/server/dashboardEvents.ts:213-344 | every event keeps it: pending and unblocked means a timer or a flush, blocked means a stall timer and a drain listener |
| EventStream.NothingLost | src/server/dashboardEvents.ts:213-314 | in any run what an open stream owes is on its way |
| EventStream.OnlyCoveredIsCleared | src/server/dashboardEvents.ts:239-257 | what is owed is cleared only by a message that covers it, of at most 32 vaults, or by closing |
| EventStream.MessageIsExact | src/server/dashboardEvents.ts:213-228 | a message names exactly the vaults owed, or the account when that was marked or over 32 are owed |
| EventStream.PublishesExactly | src/server/dashboardEvents.ts:239-257 | an authorized flush publishes exactly when something is owed and the stream is neither closed nor blocked |
| EventStream.FlushPaysAll | src/server/dashboardEvents.ts:239-257 | an authorized flush that the sink takes pays everything, and sets no timer of its own |
| EventStream.DrainResumes | src/server/dashboardEvents.ts:306-314 | a drain sets the timer again exactly when something is pending |
| EventStream.AddEach | src/server/dashboardEvents.ts:216-225 | vaults are added one by one until one is too many |
| EventStream.DashboardStream.MarkAll | src/server/dashboardEvents.ts:213-228 | marking |
| EventStream.DashboardStream.Fire | src/server/dashboardEvents.ts:230-243 | the timer begins a flush unless one is under way |
| EventStream.DashboardStream.Publish | src/server/dashboardEvents.ts:239-257 | what a flush publishes covers everything owed |
| EventStream.DashboardStream.OnDrain | src/server/dashboardEvents.ts:306-314 | the drain listener |
| EventStream.DashboardStream.CloseStream | src/server/dashboardEvents.ts:316-344 | closing |
| TimestampMerge.CompareIsTotalOrder | src/server/frontmatterTimestampMerge.ts:166-170 | comparison is a total order, equal only on the same instant |
| TimestampMerge.LaterWins | src/server/frontmatterTimestampMerge.ts:48-58 | the winner of a field is at or after both instants, by seconds and then by nanoseconds, the server's when it is not before the device's |
| TimestampMerge.SplicedIsReplaced | src/server/frontmatterTimestampMerge.ts:60-63 | splicing from the right equals replacing all spans at once |
| TimestampMerge.EditsSorted | src/server/frontmatterTimestampMerge.ts:46-61 | collecting the edits in rule order and sorting them is collecting them in text order |
| TimestampMerge.MergedText | src/server/frontmatterTimestampMerge.ts:46-64 | the result is the server's text outside the spans and, in each span, the text of the later instant, the server's on a tie |
| TimestampMerge.SwapPicksSameInstant | src/server/frontmatterTimestampMerge.ts:48-58 | swapping the sides picks the same instant in every field |
| TimestampMerge.SwapMergesSame | src/server/frontmatterTimestampMerge.ts:31-65 | and, when texts of one instant are the same, merges to the same text |
| TimestampMerge.EqualOutsideSpans | src/server/frontmatterTimestampMerge.ts:151-164 | the loop passes exactly when the texts between the spans are the same |
| TimestampMerge.SpliceRightToLeft | src/server/frontmatterTimestampMerge.ts:60-63 | the splicing loop |
| TimestampMerge.MergeLatest | src/server/frontmatterTimestampMerge.ts:31-65 | the whole merge: none exactly without rules or with a difference elsewhere, winners in rule order |
| LineFraming.FramesLine | src/headless.ts:100-109 | a line and its newline make one frame, and what follows is framed by itself |
| LineFraming.ReadChunk | src/headless.ts:88-115 | one chunk, wherever it was cut: its lines become frames, and never more than the limit is buffered |
| LineFraming.ReadBoundedLines | src/headless.ts:80-120 | the frames of a stream depend only on its bytes: split at newlines, marked over the limit, one closing return stripped from terminated lines only, an empty tail dropped |
| LineFraming.LinesComeBack | src/headless.ts:80-120 | lines written with newlines come back as they were |
| LineFraming.EndingsComeBack | src/headless.ts:80-120 | so do lines ended in any mix of newline and return with newline, a line over the limit as its mark, and a last line without an end as it stands |

## Left out

- HTTP routing, authentication, cookies, multipart bodies, static files, command lines, log formats and the dashboard's own comparison of two metadata states: no hard invariant.
- Git subprocesses, SQLite pages, fsync, rename and symbolic-link checks: atomic durable steps instead.
- YAML, JSON and regular-expression parsing, and the scanner for code in Markdown: values, spans and link targets are given.
- Strings with lone surrogates, and the order of UTF-16 units: strings here are sequences of Unicode scalar values.
- Object fields named like members of the JavaScript object prototype, such as `__proto__`: a field here is only a field.
- `app.ts` the order by locale in which directory intents are sorted: here it is by code point; all that is used of it is that a proper path prefix comes first.
- `operationHistoryStore.ts` identity, schema and recovery of a copied database file; the ledger id; the cache of open ledgers.
- `metadataStore.ts` numbering of rows that predate the ledger, and journal erasure on vault deletion beyond the removal of the ledger.
- `app.ts` rows that move no `main` ref (maintenance, device pushes, of which only the moved ref is modelled, conflict refreshes, audit entries, directory payloads of events), the text of results and reasons, and the time window and commit test in which a prepared row excuses a difference: one flag.
- `app.ts` whole-vault deletion: rows of a vault being deleted are skipped by startup and are not modelled there.
- `deviceRemovalService.ts` deletion of the whole vault in the middle of a removal, a journal whose device row is already gone, the identity check of the ref's name, and error texts; a ref that flips back after each move is not counted against the three generations, so the loop is given its attempts.
- `gitService.ts` Markdown merge rules and the printing of the merged files.
- `nameRepair.ts` sorting of files and directories (the lists come sorted), the rest of the vault path policy applied to the result, the list of renames with reasons, Markdown escapes, the test whether a link spells its extension (a parameter), and the splicing of edits into a note.
- `nameRepair.ts` case folding: a parameter that leaves an inserted number alone.
- `app.ts` the framework's own hooks: events of a request come in any order.
- `chunkTransferService.ts` manifests, digests, quarantine repositories, byte accounting on disk, expiry and the per-device limit of open transfers.
- `dashboardEvents.ts` admission limits, heartbeats beyond their writes, and a sink over its own byte limit that took the write.
- `frontmatterTimestampMerge.ts` the test that bodies are equal, which the comparison outside the spans implies.
- KeyedLock.Locks.Arrive: promises resolve at once when a call finishes; the microtask between is not modelled.
