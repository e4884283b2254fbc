# Verified model of the archive node

A Dafny model of the parts of the node that carry its guarantees: the client's block import and
finality engine, its queries over the block tree and the changes tries, the transactional runtime
calls used to execute blocks, the archive pipeline that writes to Postgres and Kafka, and the
runtime version cache. `dafny verify dfyconfig.toml` checks everything.

## What is modelled

**Block tree and routes** (`BlockTree.dfy`). Headers linked to parents. `Path` is the sequence from
genesis to a block, ancestry is being a prefix, and `FindRoute` walks two branches back to the block
they share. The route is specified by the two paths alone.

**Import and finality** (`ImportEngine.dfy`, `ChainRuns.dfy`, `Client.dfy`, `Notifies.dfy`,
`SubscriberRuns.dfy`, `BlockRules.dfy`, `CheckedRuns.dfy`). `Client` has the program's methods over a mutable operation record; each is tied to
a value (`Finality`, `Fill`, `Commit`, `Run`, `ImportStep`, `FinalizeStep`), and the theorems are about
any run of those steps. The backend's commit is an assumption of the model: finality marks in order,
then the pending block, then the head; refusing finality that is not sequential and heads that do not
build on the finalized block. The verifier in front of the client is assumed to pass only headers
numbered after their parent (`Coherent`). A block's post-header stands for the header, its hash for
the block. A subscriber is a sender in the client's vector and a channel; the channel keeps what its
receiver was sent after the sender was dropped. A revert is an event of a run that leaves the backend
with an arbitrary smaller tree.

**Queries** (`Uncles.dfy`, `ChangesTrie.dfy`). The loops of the program against a membership predicate
and against a naive scan. Changes tries are modelled along one chain, with the storage answering for
each block with the greatest zero block at or below it and the next one.

**Runtime calls** (`RuntimeCalls.dfy`). The overlay is a stack of layers; calls, initializations and
closures form finite trees. The reference (`CallOn`, `InitializeOn`, `ActOn`, `RunOn`) knows no stack:
it saves a snapshot and restores it. A runtime execution appears as the writes it leaves, whether it
succeeds, and whether its result decodes.

**Archive pipeline** (`ArchivePipeline.dfy`, `ArchiveLoop.dfy`, `ArchiveWrites.dfy`,
`ArchiveSafety.dfy`, `ArchiveScenarios.dfy`, `Replay.dfy`). Queues, tables, the Kafka log and crashes.
A write takes effect, fails, or takes effect without being acknowledged, and each such outcome is an
input. The four tasks are methods of `Pipeline`, tied to step functions; the theorems are about any
run of steps: the loop between executor and comparer, the order of writes and the metadata, the
archive as an interval, concrete runs in which that fails, and replay.

**Version cache** (`VersionCache.dfy`). Any number of calls interleaved one atomic step at a time,
including the retry loop of the copy-and-swap insert.

## What turned out not to hold

Each failing property has a concrete input or run, and a condition on what is visible before the step
under which it holds, no more and no less.

- *Best descends from finalized* and *a subscriber can follow best* fail for an import that finalizes a
  block whose parent is neither finalized nor on the best branch. The head change recorded for the
  parent is committed after the block itself, so best ends at the parent and finalized at the child
  (`OffBranchImportStrandsBest`). `BestDescendsOverRuns` and `SubscriberMirrorsBest` say which runs keep
  the two properties throughout. Over all runs, given the assumed commit, `FinalitySafety` holds: best
  descends from the finalized block or is its parent.
- Finality notifications leave blocks out when more than 256 are finalized at once or an operation does
  not notify: a silent finalization of any block below the finalized one announces nothing
  (`SilentFinalizeLeavesOut`; `FullyAnnouncedExactly` for one operation, `FinalityStreamIsChain` for runs).
- A changes-trie query from block 0 never succeeds: the walk ends by looking for genesis' parent
  (`KeyChanges`, `RequireChangesTrie`).
- *A recorded block has its initialization among the pending changes* fails in two ways, and the next
  call at that block then skips initialization. The initialization, or the call that triggered it, fails
  (`CallFaithfulExactly`, `StaleInitIsSkipped`); or nothing fails, but a closure around a successful call
  asks for rollback, which takes back the changes and not the record (`RollbackLeavesRecord`).
  `FaithfulExactly` says which trees of calls, initializations and closures leave a right record.
- Gaps need no failing insert: a failed Kafka publication of new metadata ends the archiving of its
  block before the block is stored (`PublishFailureLeavesGap`). `GapExactly` says when a block and its
  successor leave a gap, `IntervalExactly` which runs keep the archive an interval throughout.
- *A version's metadata names a block no later than any row of that version* fails across a restart,
  even though the process starts at block 0 both times: the check for a version's metadata fails at its
  first block, the metadata is written for the next block, whose insert fails, and after a restart the
  first block is archived (`MetadataCanNameLater`). `MetadataNotLaterExactly` says which runs keep it,
  and `MetadataNotLater` that starting no lower than the blocks already named is enough.
- A block whose execution fails is archived with no changes, because the outcome of the execution is
  dropped (`ExecuteBlockIntoChanges`), and replay is wrong from it on (`FailedExecutionBreaksReplay`);
  `ReplayExactly` says which runs replay survives.
- The version cache is transparent exactly if codes that share a 64-bit hash with a decodable code
  decode alike (`TransparentExactly`).

## Model

| member | source | states |
|---|---|---|
| BlockTree.FindRoute | client/service/src/client/client.rs:936-951 | walking both branches back gives the route defined by the two paths; it fails exactly for unknown blocks |
| BlockTree.Tree.RouteSplits | client/service/src/client/client.rs:776-783 | the two paths are a shared part plus the retracted blocks reversed and the enacted blocks, and the shared part is maximal |
| BlockTree.Tree.RouteAncestors | client/service/src/client/client.rs:936-963 | nothing is retracted exactly if the first block is an ancestor of the second, and the routes meet in the second exactly if it is an ancestor of the first |
| BlockTree.Tree.AfterIsLinked | client/service/src/client/client.rs:965-976 | the blocks from an ancestor down to a block are parent and child, each one higher than the one before |
| BlockTree.Tree.AfterSplits | client/service/src/client/client.rs:965-976 | finalizing in two legs finalizes the same blocks in the same order as in one |
| BlockTree.Tree.Insert | client/service/src/client/client.rs:796-801 | storing a block keeps the tree well formed and every old path, and adds the block to its parent's path |
| Client.ClientImportOperation.MarkFinalized | client/service/src/client/client.rs:965-976 | exactly the enacted blocks are marked, in order, the target last; the program's two assertions hold |
| Client.ClientImportOperation.PushLast | client/service/src/client/client.rs:977-986 | the last 256 enacted blocks, or all if there are fewer, are queued in order |
| Client.ClientImportOperation.Announce | client/service/src/client/client.rs:806-821 | an announced import is queued, with its own hash among the finalized ones if it is final |
| Client.Client.ApplyFinalityWithBlockHash | client/service/src/client/client.rs:917-989 | the operation gets the path from the finalized head to the target, a head change exactly if the target is off the best branch, and errors for unknown and non-descending targets leave it untouched |
| Client.Client.ExecuteAndImportBlock | client/service/src/client/client.rs:668-824 | the result and the filled operation on every branch: known, unknown, below finality, finalizing, becoming best, announced or silent |
| Client.Client.ApplyBlock | client/service/src/client/client.rs:582-666 | incomplete pipelines are refused before the block counts as importing |
| Client.Client.CommitAndNotify | client/service/src/client/client.rs:159-191 | commit, then finality, then import notifications; nobody is told of a refused operation |
| Client.CommitOperation | client/service/src/client/client.rs:178-181 | the backend's assumed commit, as a procedure |
| Client.Client.ImportBlock | client/service/src/client/client.rs:1724-1751 | one import from preparation to announcement is the step the run theorems are about; every commit drops closed sinks even if it announces nothing; the importing mark is cleared |
| Client.Client.FinalizeBlock | client/service/src/client/client.rs:1856-1885 | one finalization is the step the run theorems are about |
| Client.Client.CheckBlock | client/service/src/client/client.rs:1754-1818 | every answer and exactly when it is given, in terms of the rules, the tree, the kept states and the block being imported; rules come before its own status and that before its parent's |
| Client.AdmitsExactly | client/service/src/client/client.rs:1026-1052 | exactly which blocks are importable, in the same terms |
| Client.FinalityAnnouncesKnown | client/service/src/notifies.rs:59-68 | every hash a finalization queues for announcement has a header |
| Client.ImportAnnouncesKnown | client/service/src/notifies.rs:59-68 | every hash an import queues for announcement has a header once it is committed |
| ImportEngine.LastFewExactly | client/service/src/client/client.rs:977-986 | at most 256 blocks are announced, the last ones |
| ImportEngine.MarksExactly | client/service/src/client/client.rs:965-976 | exactly which finality marks the assumed commit accepts, and where they end |
| ImportEngine.CommitExactly | client/service/src/client/client.rs:178-181 | exactly which operations the assumed commit refuses, and tree and heads after the others |
| ImportEngine.MarkPath | client/service/src/client/client.rs:965-976 | marking the path from the finalized head is sequential and ends at the target |
| ImportEngine.FinalityCommits | client/service/src/client/client.rs:917-989 | a finalization is never refused by the backend, succeeds exactly for descendants of the finalized head, answers otherwise that the block is unknown or not in the finalized chain, and moves best only if the target is off its branch |
| ImportEngine.ParentFinalityMarks | client/service/src/client/client.rs:726-735 | before a finalized block is stored its parent is marked finalized, sequentially |
| ImportEngine.ImportSucceeds | client/service/src/client/client.rs:693-824 | exactly which imports that reach the backend go through |
| ImportEngine.ImportRefused | client/service/src/client/client.rs:721-801 | exactly which imports the backend refuses: finality without storage changes on an unfinalized parent, or best leaving the finalized branch |
| ImportEngine.ImportCommits | client/service/src/client/client.rs:668-824 | tree, best and finalized head after a successful import |
| ImportEngine.ImportAnnounces | client/service/src/client/client.rs:806-821 | both notifications of a successful import |
| ImportEngine.ImportAnswers | client/service/src/client/client.rs:582-735 | every refusal of an import and exactly when it is given, by parent, state, execution, pipeline, presence and finality |
| ChainRuns.FinalizedMovesDown | client/service/src/client/client.rs:943-976 | every step keeps the finalized head or moves it to a descendant |
| ChainRuns.StoresExactly | client/service/src/client/client.rs:582-824 | exactly which imports store their block, judged by parent, state, execution, checks and heads before the import |
| ChainRuns.BestAfterImport | client/service/src/client/client.rs:755-774 | best after a stored import by longest chain, by the caller's choice and when finalizing, and the answer |
| ChainRuns.ImportNote | client/service/src/client/client.rs:711-717 | exactly which stored imports are announced, by origin and by best moving off its branch, and all the note says, the storage changes included |
| ChainRuns.BestDescendsExactly | client/service/src/client/client.rs:950-962 | exactly which steps keep best below finalized, judged before the step |
| ChainRuns.BestDescendsOverRuns | client/service/src/client/client.rs:917-989 | best descends from finalized throughout a run exactly if no step strands it |
| ChainRuns.HeadsTogetherStep | client/service/src/client/client.rs:668-989 | whatever is imported or finalized, best descends from finalized or is its parent |
| ChainRuns.FinalizedGrows | client/service/src/client/client.rs:668-989 | over every run the tree grows and the finalized head only moves to descendants |
| ChainRuns.FinalitySafety | client/service/src/client/client.rs:668-989 | and, given the assumed commit, best descends from the finalized block or is its parent |
| ChainRuns.OffBranchImportStrandsBest | client/service/src/client/client.rs:726-763 | a concrete import after which best is the parent of the finalized block |
| ChainRuns.AnnouncesEndOfPath | client/service/src/client/client.rs:977-986 | one operation's finality notifications are the end of the newly finalized path, and how many there are |
| ChainRuns.AnnouncedChain | client/service/src/notifies.rs:59-72 | they are a parent chain ending at the new finalized head, and every header lookup succeeds |
| ChainRuns.FullyAnnouncedExactly | client/service/src/client/client.rs:806-821 | exactly which operations announce everything they finalize, judged by the heads and the target before |
| ChainRuns.SilentFinalizeLeavesOut | client/service/src/client/client.rs:977-986 | a finalization without notifications announces nothing, whatever it finalizes |
| ChainRuns.FinalityStreamIsChain | client/service/src/client/client.rs:977-986 | the notifications are the newly finalized chain throughout a run, without gap or repeat, exactly if every operation is such |
| ChainRuns.FollowExactly | client/service/src/client/client.rs:776-821 | exactly after which steps a subscriber folding import notifications still holds the path to best, judged before the step |
| ChainRuns.SubscriberMirrorsBest | client/service/src/client/client.rs:776-821 | it holds the path from genesis to best throughout a run exactly if every step is such |
| SubscriberRuns.AllImportsArrive | client/service/src/notifies.rs:80-126 | over a run of imports and finalizations an open import channel receives every message, in order and once |
| SubscriberRuns.ImportMessagesSay | client/service/src/notifies.rs:107-119 | whether a stored import sends a message and all the message says |
| SubscriberRuns.ReceiverMirrorsBest | client/service/src/client/client.rs:776-821 | a receiver that folds what arrives in its channel holds the path to best throughout a run exactly if every step is followable |
| SubscriberRuns.AllFinalityArrives | client/service/src/notifies.rs:48-78 | over a run an open finality channel receives every notification, in order and once |
| SubscriberRuns.ReceiverHasFinalizedChain | client/service/src/client/client.rs:977-986 | what arrives in it is the newly finalized chain throughout a run exactly if every step announces all it finalizes |
| SubscriberRuns.ImportTells | client/service/src/client/client.rs:1724-1751 | what an import does to the client's subscribers is the step of these runs |
| SubscriberRuns.FinalizeTells | client/service/src/client/client.rs:1856-1885 | and so for a finalization |
| Notifies.SendAndRetain | client/service/src/notifies.rs:70-75 | one pass sends the message into the channel of each open sink and leaves exactly the open sinks |
| Notifies.KeptInOrder | client/service/src/notifies.rs:52-75 | the sinks that stay are the open ones, a subsequence of the vector |
| Notifies.AnnounceEach | client/service/src/notifies.rs:59-76 | after a list of finalized blocks vector and channels are what the sinks' life spans allow of the whole list |
| Notifies.KeptGotAll | client/service/src/notifies.rs:48-78 | a sink stays exactly if its channel received the whole list in order; others received a proper prefix; one that never hangs up stays |
| Notifies.ToldDropsClosed | client/service/src/notifies.rs:52-91 | announcing something or nothing drops exactly the closed sinks |
| Notifies.AfterTwice | client/service/src/notifies.rs:59-76 | two announcements in a row are one announcement of both lists |
| Notifies.ClientNotifies.NotifyFinalized | client/service/src/notifies.rs:48-78 | finality sinks after any list, including the empty one that only prunes |
| Notifies.ClientNotifies.NotifyImported | client/service/src/notifies.rs:80-126 | import sinks and storage events after an import, or pruning only |
| BlockRules.BlockRules.constructor | client/service/src/client/block_rules.rs:48-56 | exactly the configured heights have a rule, the last entry of the list winning for each, and exactly the configured blocks are bad |
| BlockRules.LookupExactly | client/service/src/client/block_rules.rs:64-77 | which rule speaks against a block, the fork rule first |
| BlockRules.BlockRules.UnsafeRevert | client/service/src/client/client.rs:1008-1020 | blacklisting adds exactly the reverted blocks |
| CheckedRuns.BlacklistedBy | client/service/src/client/client.rs:1013-1018 | after a run the bad blocks are those configured and those of some earlier blacklisting revert; fork hashes never change |
| CheckedRuns.ImportedExactly | client/service/src/client/client.rs:1754-1818 | exactly when a new block offered after any run is imported: configured hash at a fork height, never bad, never blacklisted, parent there, and the import stores it |
| CheckedRuns.ImportsObeyRules | client/service/src/client/block_rules.rs:64-77 | over every run each imported block obeys the rules, and a bad block outside the chain never enters it |
| CheckedRuns.ImportsObeyConfiguration | client/service/src/client/block_rules.rs:48-77 | over every run from the configured lists an imported block has the hash of the last entry for its height and is no configured bad block |
| Uncles.FindUncles | client/service/src/client/client.rs:1073-1109 | each uncle of the first min(generations, height) generations once and nothing else; only an unknown target fails |
| Uncles.NextGeneration | client/service/src/client/client.rs:1096-1106 | one more generation adds the children of the next ancestor except the block on the way |
| ChangesTrie.RequireChangesTrie | client/service/src/client/client.rs:538-579 | exactly when the walk succeeds and how far it gets, with and without failing on disabled ranges; it terminates |
| ChangesTrie.IntervalsAdjacent | client/service/src/client/client.rs:1436-1456 | each searched interval starts exactly below the one before; the last one starts at the first block asked for |
| ChangesTrie.IntervalsDescend | client/service/src/client/client.rs:1436-1456 | the intervals descend without overlap |
| ChangesTrie.IntervalsPartition | client/service/src/client/client.rs:1436-1456 | every block asked for is in exactly one interval |
| ChangesTrie.Chain.EnabledByBlock | client/service/src/client/client.rs:538-579 | all configurations on the walk are enabled exactly if tries are enabled at every block of the range and the one before it |
| ChangesTrie.ScanDescends | client/service/src/client/client.rs:1423-1484 | the naive scan comes in descending order of blocks |
| ChangesTrie.ScanCounts | client/service/src/client/client.rs:1423-1484 | and has each change of each block of the range as often as the block, and no other |
| ChangesTrie.KeyChanges | client/service/src/client/client.rs:1423-1484 | every answer of a query: it succeeds exactly if tries are enabled all the way, it does not start at block 0 and no searched interval fails, and then equals the naive descending scan |
| ChangesTrie.MaxKeyChangesRange | client/service/src/client/client.rs:1391-1421 | exactly when there is a range and where it starts: the zero block of the lowest configuration reached, or the oldest unpruned block; tries are enabled in every block after it |
| RuntimeCalls.MockRuntimeApi.CallApiAt | archive/runtime/src/mock.rs:119-190 | a call ends at its depth, leaves lower layers alone and reaches the state of save-and-restore; a decoding failure keeps the changes |
| RuntimeCalls.MockRuntimeApi.ContextualCall | client/service/src/client/call_executor.rs:190-202 | the block is initialized first exactly if asked for and another one, or none, is recorded |
| RuntimeCalls.MockRuntimeApi.InitializeBlock | archive/runtime/src/mock.rs:393-409 | the block is recorded as initialized whether or not its initialization succeeded |
| RuntimeCalls.MockRuntimeApi.ExecuteInTransaction | archive/runtime/src/mock.rs:291-307 | a rolled back closure restores the contents even over inner commits |
| RuntimeCalls.MockRuntimeApi.CommitOrRollback | archive/runtime/src/mock.rs:101-117 | committing keeps the contents, rolling back restores those before the transaction; one is always open |
| RuntimeCalls.MockRuntimeApi.Run | archive/runtime/src/mock.rs:101-307 | any finite tree of calls is balanced, never closes a transaction that is not open, and refines the snapshot reference |
| RuntimeCalls.MockRuntimeApi.IntoStorageChanges | archive/runtime/src/mock.rs:352-371 | hands out all pending changes and forgets both them and the initialized block |
| RuntimeCalls.ExecuteBlockIntoChanges | archive/executor/src/lib.rs:246-279 | a block that fails to execute yields no changes |
| RuntimeCalls.LogOnlyGrows | archive/runtime/src/mock.rs:119-190 | no tree of calls ever rewrites changes made before it |
| RuntimeCalls.SucceedsExactly | archive/runtime/src/mock.rs:119-190 | exactly which calls and initializations go through and which results decode, judged before them |
| RuntimeCalls.CallFaithfulExactly | archive/runtime/src/mock.rs:393-409 | exactly when a recorded block still has its initialization among the pending changes after a call, judged before it |
| RuntimeCalls.StaleInitIsSkipped | client/service/src/client/call_executor.rs:190-202 | after a failed call at a fresh block the next one there runs uninitialized |
| RuntimeCalls.RunPends | archive/runtime/src/mock.rs:119-307 | exactly the changes any tree of calls leaves in the overlay, in order: all that succeeding calls and their initializations wrote, nothing of what failed or was rolled back |
| RuntimeCalls.RunLeads | archive/runtime/src/mock.rs:291-409 | the record and the pending initializations, with all they wrote, any tree of calls, initializations and closures leaves, whatever fails or is rolled back |
| RuntimeCalls.FaithfulExactly | archive/runtime/src/mock.rs:291-409 | exactly which trees, from any state, leave a record backed by a pending initialization |
| RuntimeCalls.RollbackLeavesRecord | archive/runtime/src/mock.rs:291-307 | a rolled back closure around a successful call leaves the record without its initialization, and the next call skips it |
| RuntimeCalls.OneInitPerChange | client/service/src/client/call_executor.rs:190-202 | initialization runs exactly once per change of block id |
| ArchivePipeline.MaxKey | archive/postgres/src/database/query.rs:30-41 | the largest archived block, or none |
| ArchivePipeline.Pipeline.Initialize | archive/notifier/src/initializer.rs:17-34 | restart from the largest archived block, or from genesis |
| ArchivePipeline.Pipeline.CollectChanges | archive/executor/src/lib.rs:122-134 | collecting a delta keeps the last change of each key |
| ArchivePipeline.Pipeline.ExecutorArchive | archive/executor/src/lib.rs:94-202 | the executor's step: genesis passed on if unreadable, halting on other failures, otherwise one message and the number handed on |
| ArchivePipeline.Pipeline.ComparerCompare | archive/notifier/src/comparer.rs:57-83 | advance by one below best, otherwise repeat |
| ArchivePipeline.Pipeline.NotifierArchive | archive/notifier/src/notifier.rs:79-148 | the archiver's step under any combination of write outcomes |
| ArchivePipeline.Pipeline.InsertBlock | archive/postgres/src/database/insert.rs:64-108 | an upsert of one row; the version's metadata is always there, blocks beyond the partitions are refused |
| ArchivePipeline.Pipeline.InsertMetadata | archive/postgres/src/database/insert.rs:18-41 | an upsert of one metadata row |
| ArchiveLoop.OneTokenAlways | archive/notifier/src/comparer.rs:57-83 | exactly one number circulates until the executor halts, over every run |
| ArchiveLoop.ExecutorActs | archive/executor/src/lib.rs:82-106 | when the executor stops for good, and what it hands to the comparer and the archiver otherwise |
| ArchiveLoop.StopsExactly | archive/executor/src/lib.rs:82-106 | without crashes the executor has stopped exactly if some step met such a block |
| ArchiveLoop.BestIsHighest | archive/notifier/src/comparer.rs:57-83 | the best number known is the highest seen |
| ArchiveLoop.LoopReachesBest | archive/notifier/src/comparer.rs:57-83 | with best fixed, under every interleaving with the archiver, the number that circulates reaches best in exactly best - n comparisons and then stays |
| ArchiveLoop.SentOnTheWay | archive/executor/src/lib.rs:94-106 | under every such interleaving the i-th number sent to the archiver is the i-th on that way |
| ArchiveLoop.SentClimbs | archive/notifier/src/comparer.rs:57-83 | while best grows and anything fails, the numbers sent start at the start (a failed genesis excepted) and step by 0 or 1; the archiver's queue is the end of them |
| ArchiveLoop.RisingAlways | archive/notifier/src/initializer.rs:17-34 | over every run with crashes the queue rises towards the circulating number and nothing in flight is below a stored block |
| ArchiveLoop.NeverBeyondBest | archive/notifier/src/comparer.rs:63-66 | no number in flight or stored exceeds the start or the highest best seen |
| ArchiveWrites.OrderedMeans | archive/notifier/src/notifier.rs:92-147 | what order of writes means: every publication after its insert, no version's metadata twice |
| ArchiveWrites.WritesAreOrdered | archive/notifier/src/notifier.rs:92-147 | holds over every run with any failures and crashes, and every row's version has metadata |
| ArchiveWrites.MessageCarriedOut | archive/notifier/src/notifier.rs:92-147 | archiving a message has exactly the effects of its writes, in order, up to the first that is not acknowledged, on tables and Kafka |
| ArchiveWrites.PublishedExactly | archive/notifier/src/notifier.rs:125-145 | over every run with failures and crashes, exactly which metadata and blocks are on Kafka |
| ArchiveWrites.NotLaterExactly | archive/notifier/src/notifier.rs:92-131 | exactly which messages, under which failures, put a row before the block its version's metadata names |
| ArchiveWrites.MetadataNotLaterExactly | archive/notifier/src/notifier.rs:92-131 | over any run with failures and crashes no row ever precedes that block exactly if no such message is archived |
| ArchiveWrites.MetadataNotLater | archive/notifier/src/notifier.rs:92-131 | under any failures and crashes that is so if every start is no lower than the blocks metadata already names |
| ArchiveScenarios.MetadataCanNameLater | archive/notifier/src/notifier.rs:92-131 | a run with one restart, both starts at genesis, after which row 1 precedes the block its metadata names |
| ArchiveSafety.GapExactly | archive/notifier/src/notifier.rs:92-147 | archiving a new block and then its successor leaves no gap exactly if the first is stored, its metadata published if new, or the archiver stops |
| ArchiveSafety.NothingBeyondPartitions | archive/postgres/migrations/20210409032916_tables.sql:33-42 | no block from number 10,000,000 on is ever archived |
| ArchiveSafety.IntervalExactly | archive/notifier/src/initializer.rs:17-34 | over any run with failures, crashes and restarts the archive is an interval throughout exactly if no block is stored above a missing one |
| ArchiveSafety.ArchiveIsInterval | archive/notifier/src/initializer.rs:17-34 | after any number of crashes at any step the archive is an interval of hash-linked blocks, if the archiver does not go on past a new block it could not store |
| ArchiveSafety.LacksAtMostGenesis | archive/executor/src/lib.rs:103-106 | an archive that started empty lacks at most genesis at the bottom |
| ArchiveSafety.MetadataNamesFirstBlock | archive/notifier/src/notifier.rs:92-131 | across such crashes a metadata row names the first block of its version |
| ArchiveScenarios.PublishFailureLeavesGap | archive/notifier/src/notifier.rs:125-135 | a failed metadata publication alone leaves a gap |
| Replay.ChangedKey | archive/executor/src/lib.rs:122-134 | after a delta a changed key has the value of its last change, or none if that deleted it |
| Replay.UntouchedKey | archive/executor/src/lib.rs:122-134 | and any other key is as before |
| Replay.CollectActsAsDelta | archive/executor/src/lib.rs:122-134 | the archived map acts on any state as the delta it was collected from |
| Replay.ReplayGivesState | archive/executor/src/lib.rs:114-135 | in every reachable database state folding the rows gives the backend's state |
| Replay.RowsReplayExactly | archive/executor/src/lib.rs:205-281 | exactly which tables of such rows replay to the backend's states |
| Replay.ReplayExactly | archive/executor/src/lib.rs:246-279 | with executions that may fail, after any run, exactly when replay is right: each block whose last effective archiving came from a failed execution left the state alone |
| Replay.FailedExecutionBreaksReplay | archive/executor/src/lib.rs:246-279 | archiving a block that changes the state after its execution failed makes replay wrong |
| VersionCache.DirectAnswers | archive/executor/src/version_cache.rs:60-88 | what decoding a block's code directly gives: no state, no code, an undecodable code, or its version |
| VersionCache.CacheTransparent | archive/executor/src/version_cache.rs:60-88 | over every interleaving entries only grow, and finished calls answer what direct decoding gives |
| VersionCache.NoInsertLost | archive/executor/src/version_cache.rs:81-86 | a finished call's version is in the cache from then on |
| VersionCache.CollisionLeaks | archive/executor/src/version_cache.rs:66-68 | with colliding codes a call answers with another code's version |
| VersionCache.TransparentExactly | archive/executor/src/version_cache.rs:60-88 | transparency over all interleavings is exactly compatibility of the codes |
| VersionCache.RuntimeVersionCache.GetById | archive/executor/src/version_cache.rs:60-88 | one call: answered from the entry of its code if there is one, otherwise directly, the cache changed only by its own entry; with compatible codes always the direct answer |

## Left out

- Client.Client.ImportBlock: imports and finalizations are serialized; that the importing mark is cleared after the import lock is released, so that other threads may see it gone early or kept long, is not modelled.
- Client.CommitOperation: the backend (sc-client-db) is not part of this repository; storage writes, auxiliary data, caches, changes tries and pruning of its commit are not modelled.
- Notifies.SendAndRetain: new subscriptions while notifications go out are not modelled; channels are unbounded and distinct, and a receiver goes away at a fixed moment.
- ChangesTrie.KeyChanges: one chain only, no forks; the search inside one interval is external and assumed correct when it does not fail; changes-trie proofs are not modelled.
- ArchiveSafety.ArchiveIsInterval: assumes a chain that is only appended to, a start by the initializer and not a forced number, and that the archiver does not go on past a new block it could not store (without that, see IntervalExactly).
- CheckedRuns.ImportsObeyRules: which blocks a revert takes away is the backend's choice; only that reported blocks are gone is assumed.
- ArchivePipeline.Pipeline.ExecutorArchive: the digest item removed before execution, justifications, extrinsics and the other copied columns are not modelled; child storage is not archived by the program either.
- RuntimeCalls.MockRuntimeApi.CallApiAt: the native-code variant differs only in not decoding and is the case of a result that decodes; the storage transaction cache and proof recording are not modelled.
- VersionCache.CacheTransparent: decoding is one atomic step, and the two-format version decoding is one function.
- Block status by number, blockchain reads, telemetry, configuration, RPC, networking, genesis construction, wasm overrides and proofs: plumbing or easy members.
- Updates of the finalized-block table and of spec versions, which nothing in the pipeline calls.
