# Vitna: a verified model

Vitna is a local agent platform: a daemon that runs tasks for an operator, a
broker that merges what agents did in their workspaces, a runner that executes
commands, and an app server that gives a page of a browser a folder to work in.
This project models its hardest parts in Dafny and proves what they promise.

- `EventStore`, `EventStream`, `SessionLog`, `StreamSafety`: sessions record
  runs into a durable log and publish them on a bounded, lossy feed; a
  subscriber takes the feed, replays the store, follows the feed, and re-reads
  the store when the feed dropped something. The system is a state machine whose
  steps interleave freely; the feed's capacity is a parameter.
- `EventChain`, `Engine`, `EngineTrace`: the hash chain of a run, its replay, the
  engine that records a step's events and asks for approval, and what holds of
  its log after any sequence of steps.
- `FileTree`, `Utf8`, `GitBroker`, `ChangesetPaths`, `MergeSafety`,
  `InspectedMerge`, `NamesNotText`, `MergeQueue`: a tree of directories, files, links and special files; the scan
  of an agent workspace; validation of every preimage before the first write;
  and the serialized merge queue.
- `TaskGraph`, `TaskLifecycle`: Kahn's algorithm, the cascade of cancellations,
  readiness, and why a validated graph never deadlocks.
- `CanonicalJson`, `TextOrder`, `ReceiptSigning`, `Merkle`, `MerkleLengths`,
  `EffectText`: the canonical encoding and its one reading, what a digest and a
  signature bind, and what a Merkle root commits to.
- `AppJournal`, `PageSession`, `SharedFolder`, `ReceiptFlow`: what pages did to a
  folder, requests of several sessions side by side, the per-file summary in a
  receipt, and where effects are while receipts are made of them.
- `ActionJournal`, `RunnerProtocol`: the runner's append-only journal, with
  commands side by side, crashes at any point, reopening and reconciliation.
- `TextRows`, `Ledger`: the composer's rows and cursor, and the cut of the
  ledger.

A class that the system updates in place is a class here, and its methods are
proved against functions on values; the theorems are about those functions.

## What the theorems assume

- SHA-256 is any function. A theorem that needs it says which inputs must not
  collide, or that no input hashes to sixty-four zeros, as a hypothesis.
- One run at a time in a session, and fresh run ids, as
  crates/daemon/src/ipc.rs:185 says. Sessions themselves run side by side.
- Action ids are not used twice, and reconciling marks only actions whose command
  is over: crates/vitna-runner/src/journal.rs does not enforce it, and
  `RunnerProtocol.ReconcilingIsSafeExactlyWhen` shows that nothing weaker will do.
- A request of a page has a session. Its comparison, its write and its noting are
  three steps; that its write and the reading back of what it wrote are one step,
  and that a comparison never sees half a write, is assumed.
- File names are bytes, as on Unix; a path in a changeset is text and stands as its
  UTF-8 bytes.
- A line of the runner's journal is appended whole, and a file does not change
  while it is read.
- Strings follow the escaping of section 7 of RFC 8259. Keys are ordered as Rust
  orders strings; this is not the UTF-16 order of section 3.2.3 of RFC 8785, and
  no conformance to that RFC is claimed.

## Where the code falls short of a promise

Some properties do not hold of the code on every input. For each there is a
lemma with an input that shows it, and the condition under which the property
does hold.

- A merge is not all or nothing for any list of changes
  (`MergeSafety.RelatedPathsMergeHalfway`); it is exactly for lists in which no
  path stands in another's way (`MergeSafety.MergeCompletesExactlyWhen`).
- A recorded path need not lead back to its file: it does exactly when every name
  on it is text, that is well-formed UTF-8, and holds no backslash
  (`ChangesetPaths.RecordedPathLeadsBack`). So a workspace with a file whose name
  is not text cannot be inspected (`NamesNotText.RawNameAloneFails`), unless there
  is also a file named as that name is shown; then the first file may never be
  merged, without an error (`NamesNotText.RawNameIsNeverMerged`).
- An inspected changeset can name one path twice, with a backslash in a name
  (`ChangesetPaths.BackslashRecordsTwice`) or a name that is not text, and its
  merge then stops half way (`InspectedMerge.BackslashMergeStopsHalfway`,
  `NamesNotText.RawNameMergeStopsHalfway`). Unless a path is blocked, which is
  reported before any write, a merge succeeds exactly when no two changes name one
  path (`InspectedMerge.InspectedMergeOutcome`), that is when no two scanned files
  are recorded under one path at which the trees differ
  (`InspectedMerge.PathNamedTwiceExactlyWhen`).
- The text that chains events is not unambiguous for all run ids
  (`EventChain.RunIdsCanCollide`); for two runs it is exactly when neither id is
  the other continued with a numeral (`EventChain.RunsShareTextExactlyWhen`).
- Merkle roots do not tell lists of different lengths apart: lengths are safe
  exactly when they are equal (`MerkleLengths.LengthsAreSafeExactlyWhen`).
- A write that compares before it writes can still lose another's write, since
  nothing is locked in between: both are answered as done, and noted in order
  (`SharedFolder.CrossingWritesLoseOne`).
- A receipt's records need not match the folder, since a request's write and its
  noting are two steps as well (`SharedFolder.LateNotesMislead`). A journal whose
  notes on a path are the swaps on it in their order accounts for the path exactly
  when each swap still found what its request had compared; unless a content came
  back, a journal that holds all swaps on the path does so only then
  (`SharedFolder.AccountsExactlyWhen`, `SharedFolder.SameNotesExactlyWhen`). That a
  write and its reading back are one step is assumed there. A page sees to all of
  it by being alone on a path and waiting for each answer
  (`SharedFolder.OneAtATimeAccounts`).
- Receipts in flight together can put effects back in the wrong order
  (`ReceiptFlow.TwoInFlightCanReorder`); they do not exactly when no older effect
  waits in the journal of a receipt put back (`ReceiptFlow.OrderKeptExactlyWhen`).
- Reconciling while a command runs puts its action off every path
  (`RunnerProtocol.ReconcilingRunningCommandLeavesPaths`); marking an action is safe
  exactly when its command has nothing left to journal
  (`RunnerProtocol.ReconcilingIsSafeExactlyWhen`).
- A composer's row can be wider than the width, by a last character of two cells
  (`TextRows.WideCharacterSticksOut`); for any given width the rows of all texts
  fit exactly when no character but a newline is wider than one cell
  (`TextRows.RowsAlwaysFitExactlyWhen`).

The comment at crates/vitna-runner/src/journal.rs:262-264 says that finished,
unacknowledged actions are reconciled. The code reconciles only those prepared
or started, and the model follows the code.

## Model

| member | source | states |
|---|---|---|
| `StreamSafety.StepKeepsInv` | crates/daemon/src/ipc.rs:227-305 | Every step of the daemon and of the subscriber, in any interleaving and with any feed capacity, keeps the invariant that ties what was published before the receiver's position to what was sent, is about to be sent, or will be re-read. |
| `StreamSafety.ReachableStatesSatisfyInv` | crates/daemon/src/ipc.rs:227-305 | The invariant holds in every state of every execution. |
| `StreamSafety.SentIsPrefix` | crates/daemon/src/ipc.rs:227-305 | In every reachable state the frames sent are exactly, in order and once each, the first of the session's stored events numbered above the cursor the client named. |
| `StreamSafety.DrainedSubscriberHasEverything` | crates/daemon/src/ipc.rs:214-226 | A subscriber that has read everything published has been sent all of the session's events above its cursor: the handover from replay to feed, a run list that missed a new run, and a lag report lose nothing. |
| `StreamSafety.SubscriberCatchesUp` | crates/daemon/src/ipc.rs:258-305 | While a connected subscriber is not drained it can move, and each of its moves brings it strictly closer, so it drains once appends stop. |
| `StreamSafety.CatchingUpSendsEverything` | crates/daemon/src/ipc.rs:178-188 | Left to run alone from any state that satisfies the invariant, a subscriber of a known session ends up having been sent every event above its cursor and nothing else. |
| `StreamSafety.ReadStep` | crates/daemon/src/ipc.rs:174-188 | Replaying with a run list that has meanwhile been outgrown still hands over exactly the session's next events. |
| `StreamSafety.DecideStep` | crates/daemon/src/ipc.rs:270-287 | A live event above the last one sent is always the very next one of its session. |
| `StreamSafety.SessionsAreNumberedFromOne` | crates/daemon/src/server.rs:146-166 | Across all its runs, including runs that stop part way or record nothing, a session's events are numbered 1, 2, 3 and so on with no gap and no repeat. |
| `StreamSafety.SessionsCanAlwaysRecord` | crates/daemon/src/server.rs:146-166 | In every reachable state every session can store another event of any content, in the run under way or a new one, and doing so leaves the subscriber as it is. |
| `SessionLog.ReplayIsSuffix` | crates/daemon/src/ipc.rs:174-188 | Gathering run by run and sorting neither loses, repeats nor reorders: the replay is the suffix of the session's events above the cursor. |
| `SessionLog.NextNumberContinues` | crates/daemon/src/server.rs:146-166 | The number read for a session's next run is one past all its stored events. |
| `EventStores.ReadSession` | crates/daemon/src/ipc.rs:174-188 | The gathering loop computes the replay that the lemmas speak of. |
| `EventStores.NextNumber` | crates/daemon/src/server.rs:153-166 | The loop over a session's runs computes the number that `NextNumberContinues` speaks of. |
| `EventStores.EventStore.AppendEvent` | crates/store/src/lib.rs:191-222 | An event is stored and then published exactly when its hash holds, its numbers fit the database and neither its id nor its place in its run is taken; otherwise nothing changes. So rows that carry their own hash, fit the database and share no id and no place stay such rows, and exactly the events that keep them so are taken. |
| `EventStores.EventsAreTheRunsRows` | crates/store/src/lib.rs:266-292 | What is queried of a run is its rows from a number on, each as often as it is stored, in order of their numbers. |
| `EventChain.HashTextHasOneReading` | crates/store/src/lib.rs:59-85 | The colon-joined text that is hashed can be read in one way only, for events of one run or of runs neither of whose ids continues the other, although neither the run id nor the type is escaped. |
| `EventChain.RunsShareTextExactlyWhen` | crates/store/src/lib.rs:59-85 | Events of two different runs can be hashed from one text exactly when one run id is the other followed by a colon and a numeral that ends it or is followed by another colon. |
| `EventChain.RunIdsCanCollide` | crates/store/src/lib.rs:59-85 | For one: a run `a` and a run `a:1`. |
| `EventChain.HeadCommitsToLog` | crates/store/src/lib.rs:297-367 | Two logs of one run that pass the chain checks and end in the same hash have the same length and agree on every field but the event id, barring a collision among what is hashed. |
| `EventChain.ReplayRun` | crates/store/src/lib.rs:297-367 | Replay reports the number and the hash of the last event before the first one that does not follow from it or does not carry its own hash, and asks for reconciliation if there is such an event; otherwise it reports the state the events lead to. |
| `EventChain.FirstBadIsOnePlace` | crates/store/src/lib.rs:308-334 | There is only one such place, so a broken log cannot be reported in two ways. |
| `EngineTrace.StateChangeIsRead` | crates/store/src/lib.rs:336-353 | A reported change of state is read as completed, failed or in need of reconciliation by the first of these words that occurs anywhere in its payload, in this order, and changes nothing when none does. |
| `EngineTrace.ProposalIsRead` | crates/store/src/lib.rs:336-353 | A proposed tool is read as waiting for approval, whatever the state before. |
| `EventChain.AllCheckedIsChain` | crates/store/src/lib.rs:297-367 | Every event checks out exactly when the log is a chain. |
| `EventChain.CheckedStopsAtFirstBad` | crates/store/src/lib.rs:316-325 | Replay trusts exactly the events before the first broken one. |
| `Engines.OrchestrationEngine.RecordEvent` | crates/orchestration/src/engine.rs:111-147 | A recorded event carries the next number and the last hash; a store that refuses it leaves the engine as it was; and the engine's log stays a chain of this run that the store holds. |
| `Engines.OrchestrationEngine.ExecuteTaskStep` | crates/orchestration/src/engine.rs:151-329 | A step records exactly the events of its plan, in order, unless the store refuses one, which ends it there. Otherwise an edit or a command needs the configured approval, a command that starts processes without a sandbox needs another, and then the step ends as the tool does. |
| `Engines.WholePlans` | crates/orchestration/src/engine.rs:165-285 | The longest plan and the shortest, event by event. |
| `Engines.EventIdsDiffer` | crates/orchestration/src/engine.rs:121 | Two events have one id exactly when they have the same run and the same number, whatever characters a run id holds. |
| `EngineTrace.EveryStartWasApproved` | crates/orchestration/src/engine.rs:165-285 | In the log of an engine that ran any steps, store refusals included, every start of anything but a look at the workspace happens under a configuration that approves actions, in a step in which that very action was asked for and granted before; a command that starts processes where there is no sandbox also happens only where that is allowed, asked for and granted once more; and no earlier request of the step was left open. |
| `EngineTrace.EveryFinishFollowsItsStart` | crates/orchestration/src/engine.rs:263-285 | Every finish of a tool in such a log follows the start of the same action at once, and records what the tool returned. |
| `EngineTrace.ReplayNamesWhereItStopped` | crates/store/src/lib.rs:327-353 | Wherever a step of such a log was left, after any number of its events, replay names the state given by the last request, start or finish among them. |
| `EngineTrace.WholeStepIsNamed` | crates/orchestration/src/engine.rs:151-329 | So a whole step reads as waiting for approval when refused, running the tool when the tool failed, running the model when it finished. |
| `EngineTrace.CutShortStepIsNamed` | crates/orchestration/src/engine.rs:151-329 | A step the store cut short before its first request leaves the state it found; right after a grant it still reads as waiting. |
| `EngineTrace.StepTransition` | crates/store/src/lib.rs:327-353 | How replay, which looks for names inside the type, reads each type a step records. |
| `EngineTrace.EngineLogReplays` | crates/orchestration/src/engine.rs:111-147 | What the store returns for an engine's run is what the engine recorded; it passes every check of replay, which reports its last number, hash and state. |
| `FileTree.NamesArePlain` | crates/git-broker/src/tree.rs:255-269 | A path that resolves walks plain names only: none is empty, a dot or a parent, none holds a separator. |
| `FileTree.ResolvesExactlyWhen` | crates/git-broker/src/tree.rs:255-269 | A path resolves exactly when it is not empty or absolute, starts with no dot, holds no parent step and names something; it walks its pieces but for empty ones and dots. |
| `FileTree.AbsentExactlyWhen` | crates/git-broker/src/tree.rs:80-128 | Nothing is found exactly when directories lead to where the next name is missing. |
| `FileTree.RefusedExactlyWhen` | crates/git-broker/src/tree.rs:80-128 | An entry is refused exactly when a link is met or the end is not a regular file. |
| `FileTree.Tree.EntryOf` | crates/git-broker/src/tree.rs:80-128 | The walk that follows no link finds what stands at a path: nothing, a blocked way, something refused, or a regular file with its bytes. |
| `FileTree.Tree.Write` | crates/git-broker/src/tree.rs:130-216 | The walk that makes missing directories and writes through the checked entry ends in the tree that `WriteAt` describes, or fails. |
| `FileTree.WriteSucceedsExactlyWhenWritable` | crates/git-broker/src/tree.rs:130-216 | A write succeeds exactly when nothing but missing or real directories is on the way and the entry holds the preimage. |
| `FileTree.WriteStores` | crates/git-broker/src/tree.rs:130-253 | After a successful write the path holds exactly the content. |
| `FileTree.WriteMakesDirectories` | crates/git-broker/src/tree.rs:140-165 | A write leaves a directory at each step of its path where there was one or nothing, even when it then fails. |
| `FileTree.WriteKeepsUnrelated` | crates/git-broker/src/tree.rs:130-216 | A write, refused or not, changes nothing that a path neither above nor below its own finds. |
| `FileTree.WriteBlocksRelated` | crates/git-broker/src/tree.rs:130-216 | After a write no path above or below the written one can be written. |
| `FileTree.WriteKeepsOtherLeaves` | crates/git-broker/src/tree.rs:130-216 | A write, even one that fails half way through making directories, changes no other file. |
| `GitBroker.ScanDirectory` | crates/git-broker/src/broker.rs:90-180 | The recursive scan visits every file it reaches exactly once, following no link, and records the change of each in the order of its visits. |
| `GitBroker.InspectChanges` | crates/git-broker/src/broker.rs:63-88 | An inspection succeeds with the changes of all scanned files, or fails because one could not be read or hashed. |
| `GitBroker.ScannedExactlyWhen` | crates/git-broker/src/broker.rs:90-126 | Exactly the regular files are scanned on whose path no name is one of the four that are passed over. |
| `InspectedMerge.ComparedExactlyWhen` | crates/git-broker/src/broker.rs:128-160 | A scanned file can be compared exactly when its recorded path resolves, leads to a regular file of the agent, and meets nothing in the primary that is refused. |
| `GitBroker.ValidatePreimages` | crates/git-broker/src/broker.rs:208-241 | The loop reports exactly the changes whose preimage the primary does not hold. |
| `GitBroker.WriteChanges` | crates/git-broker/src/broker.rs:289-331 | Sources are all read and checked before the first write; then the changes are written in order, and a failure names what was written before it. |
| `GitBroker.ApplyChangeset` | crates/git-broker/src/broker.rs:243-287 | Conflicts are reported without a write; without conflicts the changes are written. |
| `GitBroker.ShownNameIsSkippedExactlyWhen` | crates/git-broker/src/broker.rs:107-111 | Comparing a name as it is shown, with what is not text replaced, passes over exactly the directories and files meant to be passed over. |
| `Utf8.ShownAsItselfExactlyWhen` | crates/git-broker/src/broker.rs:130-134 | What bytes are shown as is always text, and is the bytes themselves exactly when they are well-formed UTF-8. |
| `Utf8.TextExactlyWhenEncoding` | crates/git-broker/src/broker.rs:130-134 | Bytes are well-formed exactly when they are the encoding of some characters. |
| `Utf8.Replacements` | crates/git-broker/src/broker.rs:130-134 | A character cut short is shown as one replacement character, and each byte that starts nothing as one. |
| `ChangesetPaths.RecordedPathLeadsBack` | crates/git-broker/src/broker.rs:128-134 | A recorded path walks back to the scanned file exactly when every name on the way is text and holds no backslash. |
| `ChangesetPaths.BackslashRecordsTwice` | crates/git-broker/src/broker.rs:128-134 | Where names may hold a backslash, one scan can record two files under one path. |
| `MergeSafety.ValidationIsReadiness` | crates/git-broker/src/broker.rs:208-241 | Validation finds no conflict exactly when each change, on its own, could be the next one written. |
| `MergeSafety.ConflictsAreTheUnwritable` | crates/git-broker/src/broker.rs:208-241 | The conflicts are, in order, exactly the changes that cannot be written, each with the hash it expected and that of what is there: none for nothing or a blocked way, an empty one for what is refused. |
| `MergeSafety.ValidationFailsExactlyWhen` | crates/git-broker/src/broker.rs:208-241 | Validation fails exactly when some path does not resolve, and names the first. |
| `MergeSafety.SourcesAreReadExactlyWhen` | crates/git-broker/src/broker.rs:289-317 | The sources are read exactly when the agent holds every change's content; otherwise the first that is missing is named, as stale or as gone. |
| `MergeSafety.StopNamesWhatWasWritten` | crates/git-broker/src/broker.rs:319-331 | Writing that stops names the change it stopped at and exactly those written before it, and leaves every file as after those. |
| `MergeSafety.WritingSucceedsExactlyWhen` | crates/git-broker/src/broker.rs:310-331 | Writing all changes one after another succeeds exactly when each is writable at the start and no two of them stand in each other's way. |
| `MergeSafety.WritingEffect` | crates/git-broker/src/broker.rs:310-331 | A completed series of writes leaves each target with its source's bytes and every other file as it was. |
| `MergeSafety.MergeCompletesExactlyWhen` | crates/git-broker/src/broker.rs:243-331 | After validation and with every source in place, the merge completes exactly when the changes do not stand in each other's way. |
| `MergeSafety.MergeIsAllOrNothing` | crates/git-broker/src/broker.rs:243-331 | A merge of compatible changes puts in the whole changeset or touches nothing. |
| `MergeSafety.RelatedPathsMergeHalfway` | crates/git-broker/src/broker.rs:243-331 | Without compatibility it can stop half way: a changeset with `a/b` and `a` passes validation, writes the first and then cannot write the second. |
| `InspectedMerge.RegularFilesAreUnrelated` | crates/git-broker/src/tree.rs:80-128 | Of two regular files neither lies below the other. |
| `InspectedMerge.InspectionIsIndependentExactlyWhen` | crates/git-broker/src/broker.rs:63-180 | An inspected changeset never names a path below another, so its changes stand in each other's way exactly when two of them name one path. |
| `InspectedMerge.PathNamedTwiceExactlyWhen` | crates/git-broker/src/broker.rs:90-180 | And two of them name one path exactly when two scanned files are recorded under one path at which the trees differ. |
| `InspectedMerge.BlockedMeansNoDirectory` | crates/git-broker/src/tree.rs:80-128 | A path is blocked exactly when one of its proper prefixes is a file or a special file. |
| `InspectedMerge.InspectedMergeOutcome` | crates/git-broker/src/broker.rs:243-331 | Merging any inspected changeset into the unchanged primary: if a non-directory stands where a directory is needed, exactly those files are reported as conflicts and nothing is written; otherwise it succeeds on all files exactly when no two changes name one path. |
| `InspectedMerge.RecordableMergeOutcome` | crates/git-broker/src/broker.rs:243-331 | Where file names are text without backslashes no path is named twice, so the merge fails only when blocked, and is then all or nothing. |
| `InspectedMerge.BackslashMergeStopsHalfway` | crates/git-broker/src/broker.rs:289-331 | The changeset inspected in a workspace with a file `a\b` beside a directory `a` holding `b` is merged half way. |
| `InspectedMerge.MergedPrimaryHoldsAgentFiles` | crates/git-broker/src/broker.rs:63-331 | After a successful merge the primary holds byte for byte every agent file a recorded path walks to, so every scanned file whose names are text and hold no backslash, and no other file of it changed. |
| `InspectedMerge.ReinspectionFindsNothing` | crates/git-broker/src/broker.rs:63-180 | Inspecting again after a successful merge finds nothing. |
| `NamesNotText.RawNameAloneFails` | crates/git-broker/src/broker.rs:128-145 | A workspace with a file whose name is not text, and no file named as that name is shown, has no inspection. |
| `NamesNotText.RawNameMergeStopsHalfway` | crates/git-broker/src/broker.rs:289-331 | Beside such a file one path is recorded twice, and the merge stops after writing it once. |
| `NamesNotText.RawNameIsNeverMerged` | crates/git-broker/src/broker.rs:128-180 | When the primary already holds that other file, inspection and merge succeed and the file whose name is not text stays behind. |
| `MergeQueues.MergeQueue.ProcessNext` | crates/git-broker/src/merge_queue.rs:60-84 | The oldest item is taken out and put in the history with its result. It is merged whole, with all its paths, exactly when its changes are compatible, each target can be written and the workspace holds each content; it is a conflict, with exactly the targets that cannot be written, exactly when there are such and every path resolves; anything else is an error of the kind that fits, and leaves the primary as it was unless writing stopped. |
| `MergeQueues.MergeQueue.ProcessAll` | crates/git-broker/src/merge_queue.rs:86-95 | Draining processes the items in order, one result each, and each result is the one its own item must have in the tree that the items before it left. |
| `MergeQueues.ProcessingIsAllOrNothing` | crates/git-broker/src/merge_queue.rs:61-83 | Processing an item merges its whole changeset or leaves the primary as it was. |
| `MergeQueues.OnlyMergedItemsMatter` | crates/git-broker/src/merge_queue.rs:85-93 | Draining only the items that merged merges all of them and ends in the same tree. |
| `MergeQueues.DrainIsSerial` | crates/git-broker/src/merge_queue.rs:85-93 | Each file of the final primary holds what the last merged item that changes it brought, or what it held before. |
| `TaskGraphs.TaskGraph.Validate` | crates/orchestration/src/dag.rs:64-117 | Validation succeeds exactly when every dependency exists and the dependency relation has no cycle, duplicate dependencies or not, and its loop ends; it names which of the two failed. |
| `TaskGraphs.OrderedIsAcyclic` | crates/orchestration/src/dag.rs:84-111 | A graph all of whose tasks can be listed after what they wait for has no cycle. |
| `TaskGraphs.StuckSetHasCycle` | crates/orchestration/src/dag.rs:112-114 | A nonempty set of tasks that each wait for another member holds a cycle. |
| `TaskGraphs.KahnVerdict` | crates/orchestration/src/dag.rs:84-117 | When the queue runs dry, every task was visited exactly when there is no cycle. |
| `TaskGraphs.TaskGraph.GetReadyTasks` | crates/orchestration/src/dag.rs:120-140 | Exactly the pending tasks all of whose listed dependencies are tasks that succeeded, in order of their ids. |
| `TaskGraphs.TaskGraph.IsComplete` | crates/orchestration/src/dag.rs:189-197 | True exactly when every task has succeeded, failed or been cancelled. |
| `TaskGraphs.TaskGraph.MarkFailed` | crates/orchestration/src/dag.rs:163-187 | Marks the task failed with its error and cancels exactly the pending tasks reachable from it along paths of pending tasks, whatever order the tasks are visited in, each on account of a dependency that failed or was cancelled; stops on cyclic graphs too. |
| `TaskGraphs.DoomedTasksAreClosed` | crates/orchestration/src/dag.rs:163-187 | Whatever a cancelled task cancels is cancelled. |
| `TaskGraphs.DoomedTasksAreLeast` | crates/orchestration/src/dag.rs:163-187 | Nothing is cancelled that does not have to be. |
| `TaskLifecycle.FailureChangesOnlyDownstream` | crates/orchestration/src/dag.rs:163-187 | A failure changes its own task and pending tasks downstream, and no other status. |
| `TaskLifecycle.NoneEverWaitsInVain` | crates/orchestration/src/dag.rs:142-187 | Whatever reports arrive, no pending task depends on a failed or cancelled one. |
| `TaskLifecycle.NoDeadlock` | crates/orchestration/src/dag.rs:120-196 | From a validated graph of pending tasks, whatever reports arrive, either every task has succeeded, failed or been cancelled, or one is running, or a pending one has only dependencies that succeeded. |
| `TaskLifecycle.ReportKeepsBackingExactlyWhen` | crates/orchestration/src/dag.rs:142-187 | Where every running task has only dependencies that succeeded, a report keeps it so exactly when a started task's own dependencies have succeeded, and no running task depends on one that is started or failed. |
| `TaskLifecycle.RunningTasksAreBacked` | crates/orchestration/src/dag.rs:120-187 | In any run that starts only ready tasks and fails none that succeeded, every running task has only dependencies that succeeded. |
| `TaskLifecycle.Report` | crates/orchestration/src/dag.rs:142-187 | The three `mark_` methods are the steps those theorems are about. |
| `CanonicalJson.WriteCanonical` | crates/tools/src/lib.rs:140-169 | The writer appends the canonical text, whatever order an object's map yields its keys in. |
| `CanonicalJson.CanonicalIsRead` | crates/tools/src/lib.rs:140-169 | A parser undoes the encoding of every value, whatever delimiter follows it. |
| `CanonicalJson.CanonicalIsInjective` | crates/tools/src/lib.rs:89-138 | Equal encodings mean equal values. |
| `CanonicalJson.DigestBindsAction` | crates/tools/src/lib.rs:115-138 | Two built-in actions have one digest exactly when tool and arguments are the same. |
| `CanonicalJson.DigestBindsMcpAction` | crates/mcp/src/broker.rs:62-68 | Two actions of tools served over MCP have one digest exactly when server, tool and arguments are the same. |
| `CanonicalJson.McpNeverPassesForBuiltIn` | crates/mcp/src/broker.rs:56-68 | An identity that names an MCP server is never encoded, or digested, like a built-in tool's. |
| `TextOrder.SortStrings` | crates/tools/src/lib.rs:144-145 | Sorting keys yields the one strictly increasing list of them. |
| `TextOrder.LessExactlyWhen` | crates/tools/src/lib.rs:144-145 | A key is before another exactly when it is the start of it or has the lesser character where they first differ. |
| `CanonicalJson.TwoFields` | crates/tools/src/lib.rs:143-156 | An object is written as its quoted keys and values, the lesser key first. |
| `CanonicalJson.OneField` | crates/tools/src/lib.rs:143-156 | An object of one field is a brace, the quoted key, a colon, the field and a brace. |
| `CanonicalJson.TwoItems` | crates/tools/src/lib.rs:143-156 | An array of two items is a bracket, the first, a comma, the second and a bracket, in the given order. |
| `CanonicalJson.Escapes` | crates/tools/src/lib.rs:167 | Which characters of a string are escaped, and how. |
| `CanonicalJson.ActionIsHashedAs` | crates/tools/src/lib.rs:115-117 | What is hashed for a call is the object of its arguments and its tool's name. |
| `ReceiptSigning.EncodersAgree` | crates/receipts/src/lib.rs:97-117 | The receipts' own encoder writes the same text as the tools' encoder. |
| `ReceiptSigning.SignatureCoversTheRest` | crates/receipts/src/lib.rs:89-126 | Two receipts are signed as the same text exactly when they agree on every field but the signature. |
| `Merkle.ComputeEventMerkleRoot` | crates/receipts/src/lib.rs:136-162 | The level-by-level loop ends and returns the recursive root, in hex, or zeros for no events. |
| `Merkle.LoopComputesTreeRoot` | crates/receipts/src/lib.rs:146-159 | That root is the root of the tree defined from the top by its two halves, a missing right half replaced by the left one. |
| `Merkle.RootCommitsToLeaves` | crates/receipts/src/lib.rs:146-161 | Equally many leaves with one root are the same leaves, barring a collision among what is hashed. |
| `Merkle.SmallRoots` | crates/receipts/src/lib.rs:146-161 | One leaf is its own root, two are hashed left before right, and a third is hashed with itself. |
| `Merkle.LeafOfHash` | crates/receipts/src/lib.rs:141-144 | A leaf is the bytes its hash spells, or thirty-two zeros. |
| `MerkleLengths.AnyLengthsShareRoot` | crates/receipts/src/lib.rs:146-161 | For any two lengths there are lists of digests that share a root with no collision behind it. |
| `MerkleLengths.LengthsAreSafeExactlyWhen` | crates/receipts/src/lib.rs:146-161 | So a root commits to its leaves among lists of lengths n and m exactly when n is m. |
| `Merkle.ChainCommitsToBodies` | crates/app-server/src/journal.rs:105-114 | Equal chains of hashes are chains of the same texts. |
| `Merkle.ChainLinks` | crates/app-server/src/journal.rs:105-114 | Each hash of a chain is that of the one before it, a newline and the text; the first follows sixty-four zeros. |
| `EffectTexts.TextTellsEffectsApart` | crates/app-server/src/journal.rs:25-56 | Two effects are serialized alike exactly when they are the same effect. |
| `EffectTexts.ReceiptRootCommitsToEffects` | crates/app-server/src/journal.rs:105-114 | Equally many effects with one receipt root are the same effects in the same order, barring a collision among what is hashed. |
| `AppJournals.FilesModified` | crates/app-server/src/journal.rs:116-140 | One record per file touched, in the order of first touches, with the first preimage and the last postimage. |
| `AppJournals.ReceiptSumsUpSession` | crates/app-server/src/journal.rs:116-140 | When each effect names what the folder held, applying the records to the folder before gives the folder after, and applying them backwards gives the folder before again. |
| `PageSessions.Folder.Write` | crates/tools/src/workspace_files.rs:250-277 | A write replaces a file exactly when the file holds the hash the caller named; otherwise nothing changes and the error says why. |
| `PageSessions.Folder.Remove` | crates/tools/src/workspace_files.rs:282-296 | A file is removed exactly when it holds the hash the caller named; otherwise nothing changes and the error says why. |
| `PageSessions.Folder.CommitWrite` | crates/tools/src/workspace_fs.rs:231-260 | Whatever happened since the comparison, a write goes through the handle that was compared: it replaces that very file, makes an absent one only if none stands there now, and fails when the name then does not show the content. |
| `PageSessions.Folder.CommitRemove` | crates/tools/src/workspace_fs.rs:281-283 | A removal takes away the very file that was compared, or nothing. |
| `PageSessions.Prepare` | crates/tools/src/workspace_files.rs:250-296 | The first step of a request changes nothing. A write goes on exactly when its path and content are acceptable and the file, small enough to be read, hashes to what the request named, or is absent and the request named that; a removal exactly when the file is there and hashes to what the request named. |
| `PageSessions.Commit` | crates/app-server/src/api.rs:519-572 | The second step does to the folder, as it is by then, what the request prepared, and names the effect to be noted; a request that fails has no effect. |
| `PageSessions.CommitTouchesOnlyWhatItCompared` | crates/tools/src/workspace_fs.rs:231-283 | A request changes a file only where the very file stands that it compared, or none where it found none. |
| `PageSessions.FinishReceipt` | crates/app-server/src/api.rs:776-829 | Whatever was noted since the effects were taken, a receipt that is written summarises them, and one that is not puts them back in front. |
| `SharedFolder.EveryStateIsSound` | crates/app-server/src/api.rs:519-572 | With the three steps of requests of any sessions interleaved: the folder is what the swaps made of it; they name what each replaced exactly when each still found what its request had compared; and each swap is waiting or noted once in its own session's journal. |
| `SharedFolder.EffectsAreAsked` | crates/app-server/src/api.rs:519-572 | In every state of every run, each effect is one that its own session asked for: path, content and preimage are those its request named. |
| `SharedFolder.ChangesMeetTheComparedFile` | crates/tools/src/workspace_fs.rs:231-283 | In any run, no request replaces or removes a file that was put at its path after it compared. |
| `SharedFolder.LateNotesMislead` | crates/app-server/src/api.rs:532-541 | Two writes of one page to one file, noted in the other order, leave a receipt that says the file holds what the first write put there. |
| `SharedFolder.AccountsExactlyWhen` | crates/app-server/src/api.rs:519-572 | A journal that notes exactly the swaps on a path in their order accounts for the path exactly when each swap found what its request had compared. Unless a swap brought the path back to what it held, no other journal does, if all swaps found that or the journal holds them all. |
| `SharedFolder.SameNotesExactlyWhen` | crates/app-server/src/api.rs:519-572 | It notes them so exactly when no other session swaps the path, no request on the path is still to be noted, and its notes on the path come in the order of the swaps. |
| `SharedFolder.JournalAccountsExactlyWhen` | crates/app-server/src/api.rs:519-572 | The same for the whole folder. |
| `SharedFolder.ReturningContentHidesOrder` | crates/app-server/src/api.rs:519-572 | Why the one exception is needed: two writes of what a file already holds account for it whichever is noted first. |
| `SharedFolder.CrossingWritesLoseOne` | crates/tools/src/workspace_files.rs:250-277 | Two writes that compare before either writes both pass and are noted in order, yet the second overwrites the first: a journal that notes both does not account for the file, and one of another session that notes the second alone does, which is why the other exception is needed. |
| `SharedFolder.OneAtATimeAccounts` | crates/app-server/src/api.rs:519-572 | A session that is alone on a path and starts no request on it before the previous one is answered accounts for the path whenever none is still to be noted. |
| `SharedFolder.RecordIsTrue` | crates/app-server/src/journal.rs:116-140 | On a path the journal accounts for, a receipt's record names what the path held before and what it holds now. |
| `SharedFolder.ReceiptCoversSession` | crates/app-server/src/journal.rs:116-140 | If that goes for all paths, the records of a receipt turn the folder the session found into the folder it left, and read backwards undo it. |
| `ReceiptFlow.EachEffectIsHeldOnce` | crates/app-server/src/api.rs:777-829 | Under any interleaving of recording, taking, failing and succeeding, each effect ever recorded is in one place once: the journal, a receipt in flight or a signed receipt. |
| `ReceiptFlow.HistoryIsWhatWasRecorded` | crates/app-server/src/journal.rs:59-80 | In every reachable state a session is there exactly when it was opened, its history is what steps recorded under its token since, and no signed receipt is ever taken back. |
| `ReceiptFlow.BegunReceiptLeavesNothingOut` | crates/app-server/src/journal.rs:64-80 | Once a receipt is begun, the receipts in flight and signed hold every effect recorded under the token so far, each once, and the journal holds none. |
| `ReceiptFlow.OneAtATimeKeepsOrder` | crates/app-server/src/journal.rs:64-80 | While no receipt is begun with another in flight, signed receipts, the one in flight and the journal together read in recording order. |
| `ReceiptFlow.OrderKeptExactlyWhen` | crates/app-server/src/api.rs:777-829 | Throughout a run every journal and every receipt in flight is in recording order exactly when no receipt is put back while an effect older than one of its own waits in the journal. |
| `ReceiptFlow.NewestFirstKeepsOrder` | crates/app-server/src/api.rs:777-829 | Putting back only the newest receipt in flight keeps every journal in order, however many are in flight. |
| `ReceiptFlow.TwoInFlightCanReorder` | crates/app-server/src/api.rs:777-829 | In a run from the start, two receipts in flight that fail in the order they were begun leave the later effect first. |
| `ActionJournals.ActionJournal.Open` | crates/vitna-runner/src/journal.rs:62-82 | Opening keeps the last entry of each action in the file. |
| `ActionJournals.ActionJournal.ReconcileCrashedActions` | crates/vitna-runner/src/journal.rs:265-280 | Exactly the actions left prepared or started are marked, in memory and in the file; afterwards none is left. |
| `ActionJournals.ReconcilingSettlesOnce` | crates/vitna-runner/src/journal.rs:265-280 | Reconciling touches no other entry, and a second time changes nothing. |
| `RunnerProtocol.RunCommand` | crates/vitna-runner/src/lib.rs:187-419 | One command appends exactly its script of entries, for every way it can end, and succeeds only when the process exited. |
| `RunnerProtocol.UndisturbedCommandIsWholePath` | crates/vitna-runner/src/lib.rs:187-419 | The script of an undisturbed command is a whole path of the step machine. |
| `RunnerProtocol.CommandIsRunOfMachine` | crates/vitna-runner/src/lib.rs:187-419 | Whatever else runs, a command with a fresh id can take its steps to each of its endings, and they append exactly the entries `RunCommand` appends. |
| `RunnerProtocol.ScriptTellsEnding` | crates/vitna-runner/src/lib.rs:187-419 | The last entry of a command says how it ended, what it returned, and where it ran. |
| `RunnerProtocol.EntriesTellWhatHappened` | crates/vitna-runner/src/journal.rs:62-260 | In every reachable state each line of the journal and each entry in memory tells only what steps of its own action reported: exit code, digests, isolation, termination and times. |
| `RunnerProtocol.StepKeepsInv` | crates/vitna-runner/src/lib.rs:187-419 | Commands side by side, crashes, reopening and reconciling keep each action on a path of the step machine and the entries in memory equal to what the file rebuilds. |
| `RunnerProtocol.EveryActionFollowsThePaths` | crates/vitna-runner/src/lib.rs:187-419 | However commands interleave and wherever the runner crashes, each action's lines are a prefix of one path. |
| `RunnerProtocol.CrashAndReopenRestoreEntries` | crates/vitna-runner/src/journal.rs:61-82 | Reopening after a crash rebuilds exactly the entries that were in memory. |
| `RunnerProtocol.ReconciliationFindsWhatCrashInterrupted` | crates/vitna-runner/src/journal.rs:265-280 | The actions reconciling will mark are exactly those prepared or started and not settled; a finished one keeps its result. |
| `RunnerProtocol.ReconcilingRunningCommandLeavesPaths` | crates/vitna-runner/src/journal.rs:265-280 | An action marked for reconciliation while its command still runs leaves every path as soon as the command finishes. |
| `RunnerProtocol.ReconcilingIsSafeExactlyWhen` | crates/vitna-runner/src/journal.rs:265-280 | Marking an unsettled action leaves it on a path whatever step comes next exactly when its command has no step left to journal; then nothing is appended for it any more, and otherwise the command's next step puts it off every path. |
| `TextRows.Rows` | apps/vitna-tui/src/text.rs:95-143 | The loop returns a layout: rows that fit, in order, each break at a newline, after the space that meets the edge, after the last space before a word that does not fit, or at the edge inside a word too long for a row. |
| `TextRows.RowsPartitionTheText` | apps/vitna-tui/src/text.rs:95-143 | Rejoining the rows gives the text back: nothing but newlines is dropped, and every newline is. |
| `TextRows.WordsAreKeptWhole` | apps/vitna-tui/src/text.rs:89-143 | A row that no newline ends is cut inside a word only if it is all one word, and what it breaks before no longer fitted. |
| `TextRows.RowsFit` | apps/vitna-tui/src/text.rs:89-94 | With characters of one cell no row is wider than the width, apart from one space hanging after a full row. |
| `TextRows.RowsAlwaysFitExactlyWhen` | apps/vitna-tui/src/text.rs:89-143 | For any width, the rows of every text fit exactly when no character but a newline is wider than one cell. |
| `TextRows.LayoutIsUnique` | apps/vitna-tui/src/text.rs:89-143 | With characters of one cell there is only one layout, so the contract of `Rows` leaves no choice. |
| `TextRows.CursorIsInItsRow` | apps/vitna-tui/src/text.rs:148-157 | Every place in the text lies within its row's bounds and before the next row's start. |
| `TextRows.CursorMovesByWidth` | apps/vitna-tui/src/text.rs:148-157 | The cursor starts a row at its left edge and moves right by a character's width as it passes it. |
| `TextRows.CursorsMeetExactlyWhen` | apps/vitna-tui/src/text.rs:145-157 | Two places share a row and a column exactly when nothing between them takes a cell and no row starts between them. |
| `TextRows.CursorsNeverMeet` | apps/vitna-tui/src/text.rs:145-157 | When every character takes a cell, no two places share a row and a column. |
| `Ledgers.ReadCapped` | crates/app-server/src/ledger.rs:51-91 | What is kept starts at the earliest row start within the cap, or is nothing; missing, irregular, unreadable and undecodable files are told apart. |
| `Ledgers.LargerCapKeepsMore` | crates/app-server/src/ledger.rs:62-86 | There is one such cut, and a larger cap never leaves out more. |
| `Ledgers.CutAccountsForTheFile` | crates/app-server/src/ledger.rs:74-91 | What is kept and what is left out make up the file, and no row is kept without its start. |

## Left out

- Transport and user interface: sockets, framing, the handshake, HTTP, terminal drawing.
- Operating system calls: process spawning and teardown, sandbox probes, inode identity of opened files. In the tree model an opened handle is the walked path.
- SQLite, serde and Ed25519 internals: the store is an ordered list of rows, a payload's encoding is a function, a number is the token it prints as, a signature is over a text.
- UTF-8 outside file names: elsewhere a character stands for a byte of a file or a character of a text; whether the ledger decodes is a parameter.
- Windows path rules: the path model has one separator, names of bytes, and no drive or reserved names.
- File systems that fold case or normalize names, on which two names are one file: in the trees of a merge and in a page's folder different names are different files.
- Permission bits, diff text, changeset ids, timestamps as such, and the wording of messages.
- Writers outside the system: nothing else changes the trees of a merge, or a shared folder, while the steps modelled here run. A command a page runs may change files; those changes are not effects in a journal and not in the theorems about its records.
- PageSessions.Commit: a write and the reading back of it are one step. In the source another request's write can come between them, and the first is then answered as failed though it changed the file.
- A receipt taken while requests are under way: `SharedFolder` follows the journal from a moment when nothing waits.
- Links inside a page's folder: two names of one file are two files in the model.
- The receipt file that `make_receipt` writes into the folder, which is not an effect of the session.
- `finalize_run` and the events around a step (the prompt, the receipt): thin recording through `RecordEvent`.
- Which of several failed dependencies the message of a cancelled task names: it depends on the order tasks are visited in, and the contract allows each.
- `wrap`, `truncate` and `clean` in the terminal's text module.
- Rows of two-cell characters: `TextRows.LayoutIsUnique` is about characters of at most one cell; `TextRows.RowsPartitionTheText` and the cursor lemmas are about all.
- The fault-injecting runner: the crash step of `RunnerProtocol` may happen between any two appends and so covers its fault points.
- Concurrent runs inside one session, and two runs that share an id.
- Failed disk writes, torn journal lines, files changing size while they are read.
- Provider adapters and the MCP client.
