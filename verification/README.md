# XEnsemble control plane: verified cores

XEnsemble is a control plane for running coding agents. This project models its self-contained cores in Dafny and
proves what they are for. Each module stands for one source file, or for one concern of it.

**Protocols.** Code that runs between two awaits is one atomic step, and so is each database statement or
transaction. The state (maps, flags, queues, rows) is a value with an `Enabled` predicate and an `Apply` function for
the steps; theorems quantify over every run of every interleaving. Beside it stands a class with the source's fields,
whose methods are proved to take the state exactly where `Apply` takes it.

- `GitLock`, `GitLockProjects`, `GitLockDeadlock`: the re-entrant git lock per project. Mutual exclusion, first come
  first served, no waiting across projects, exact map of tails, progress for nested calls, and the exact condition for
  everything to finish whatever the nesting.
- `Singleflight`, `SingleflightAnswers`: concurrent calls with one key share one run and its outcome.
- `BuildQueue`, `BuildQueueInvariant`, `BuildQueueRuns`, `BuildQueueResults`, `BuildQueueProgress`,
  `BuildQueueStaysQueued`, `BuildQueueLostWake`, `AgentImageBuilds`: the image build queue with its loop flag, its
  wake-ups and the semaphore it shares. Permits never leak, each build is executed once and gets the result that its
  execution reports, the oldest goes first, the queue drains, and exactly when a build stays queued.
- `Provisioning`, `ProvisioningOutcome`, `ProvisioningLeaks`: session provisioning racing with deletes and with the exit
  callback of the agent; what becomes of a session is told by the steps that ran.
- `ProjectDelete`, `ProjectDeleteQuiet`, `ProjectDeleteRetries`, `ProjectDatabase`: the four delete rounds over the
  foreign-key graph, with retries and concurrent writers.

**Streams and texts.** A loop of the source is a method proved equal to a function, and the function's meaning is
proved as lemmas.

- `Deframer`, `DeframerLines`: the chunked log-stream deframer, and what it makes of any text.
- `BindingsToml`, `BindingTables`, `BindingsUpsert`, `UpsertTwice`, `ServiceBlocks`, `AgentServiceToml`: the reading
  and rewriting of `[[bindings]]` and `[[services]]` tables.
- `ProviderSecrets`, `ProviderValues`, `ProviderTables`, `UpsertKeepsProviders`, `ProviderLost`: the provider parser
  that reads the same file.
- `GraphLog`: the parsers of `git log --graph` and of `getLog`, as inverses of the printed formats.

**Orders, paths and arithmetic.** `SemVer`, `SemVerCores` and `SemVerOrder` (version comparison), `SafePath` and
`SafePathInputs` (path jail with symbolic links), `Truncate` (byte-bounded truncation), `Quota` (fixed-window limiter),
`RefreshTokens` (rotation chains).

`Doubles` holds the rounding of numerals to doubles; `Text`, `Counting` and `Wrappers` hold shared helpers.
`dafny verify dfyconfig.toml` verifies the whole project.

## What the proofs found

Where a promise does not hold of the code as it is, the code is kept, a lemma gives a case in which it fails, and the
exact condition under which it holds is proved.

- A chunk cut shows in the output exactly when the text before it ends inside a line with nothing held back and the
  text after it begins with, or is cut inside, a marker (`Deframer.CutTheorem`). For a list of chunks two such cuts can
  make up for each other (`Deframer.CutsThatShowOrNot`): in the end the chunking shows exactly when something is cut
  out of the inside of a line, or is still held back there (`Deframer.ChunkingExactly`).
- In the synchronisation every per-agent `changed` flag is false, because it is computed after `before` is
  overwritten (`AgentServiceToml.SyncAll`); it is wrong whenever the pair was not bound before
  (`AgentServiceToml.ChangedFlagIsWrong`), as in an empty file (`AgentServiceToml.FirstFlagIsWrong`).
- Writing a binding can take away a provider (`ProviderLost.UpsertCanLoseProvider`). It does so exactly when a provider
  is read from inside a bindings table of the agent (`UpsertKeepsProviders.UpsertKeepsProviders`).
- A commit time comes back unchanged exactly when a double can hold it (`GraphLog.GraphLogRoundTrip`,
  `GraphLog.LogRoundTrip`), so always below 2^53; 9007199254740993 comes back as 9007199254740992
  (`GraphLog.LargeTimeIsRounded`).
- Calls of the git lock that nest across projects can wait for each other for good (`GitLock.CrossNestingCanStick`).
  Without new calls everything finishes exactly when no calls wait for each other in a cycle
  (`GitLockDeadlock.FinishesExactlyWithoutCycle`).
- A build can stay queued for good (`BuildQueueLostWake.WakeUpCanBeLost`). When the system can do nothing by itself, a
  build is still queued exactly when it was inserted after the loop's last answer, which was that the queue is empty,
  or when a statement of the loop failed while a build was queued and nothing called the loop after that
  (`BuildQueueStaysQueued.StaysQueuedExactly`).
- A delete inside the guard of provisioning can leave a live handle behind (`ProvisioningLeaks.SplitGuardLeaks`). Once
  provisioning has finished a handle lives exactly when the guard registered it and no delete killed it or removed its
  entry after that (`ProvisioningLeaks.LeaksExactly`).
- An exited session row is final exactly when no unguarded write of `running` is due and no exit callback of a live
  recoverable session can still write `idle` (`Provisioning.ExitedIsFinal`). Even after a finished delete it can be
  overwritten, exactly when such a write is pending (`Provisioning.FinishedDeleteIsFinal`,
  `ProvisioningLeaks.ExitCallbackOverwrites`).
- The project delete succeeds, with nothing written meanwhile, exactly when no row outside the project refers to a row
  of it (`ProjectDeleteQuiet.SucceedsExactlyWithin`); a session of another project on a runtime of this one blocks it
  (`ProjectDeleteQuiet.SharedRuntimeBlocksDelete`).
- The version comparison follows section 11 of Semantic Versioning 2.0.0 for an alphanumeric identifier against
  numeric ones exactly when the identifier's first character that is not a 9 is a letter
  (`SemVerOrder.FollowsNumeralsExactly`). Other identifiers, unless they start with 0, are in a cycle
  (`SemVerOrder.CycleExactly`), as in 9 < 10 < 1a < 9 (`SemVerOrder.DigitFirstCycle`); without them it is transitive
  (`SemVerOrder.SortableTransitive`).
- Numbers are compared as doubles. Two numerals compare as the standard wants exactly when they are equal or not
  rounded to the same double (`SemVerOrder.NumeralsAgreeExactly`), as 2^53 and 2^53 + 1 are
  (`SemVerOrder.RoundedNumeralsAreEqual`). The comparison is antisymmetric exactly when it is not decided by two numbers
  that overflow (`SemVer.AntisymmetricExactly`, `SemVer.OverflowIsNotReflexive`).
- The omitted bytes reported by a truncation are 2 less than what was cut off exactly when the cut separates a
  surrogate pair (`Truncate.OmittedIsTheRest`), as when an emoji is cut to 3 bytes (`Truncate.EmojiIsCut`).

## Model

The results come first. The last rows, from `GitLock.ProjectGitLock` on, are the methods of the four protocol classes:
each takes the state exactly where its step of the machine takes it.

| member | source | states |
|---|---|---|
| GitLock.StepKeepsInv | server/src/git/gitMutationLock.js:12-30 | every call, start, settlement, tail and cleanup, in any order, keeps the lock's invariant |
| GitLock.MutualExclusion | server/src/git/gitMutationLock.js:12-30 | in every run, callbacks of one project that are between start and settlement belong to one outermost section |
| GitLock.FirstComeFirstServed | server/src/git/gitMutationLock.js:19-24 | outermost sections of a project start in call order: all earlier ones have settled, resolved or rejected |
| GitLockProjects.OtherProjectsNeverWait | server/src/git/gitMutationLock.js:12-22 | in every run a call can start unless an earlier call of its own project has an unsettled tail; calls of other projects never make it wait |
| GitLockProjects.SameProjectWaits | server/src/git/gitMutationLock.js:12-24 | when an outermost call of a project has started, every earlier one made for that project has settled |
| GitLockProjects.NextExactly | server/src/git/gitMutationLock.js:12-29 | what can follow any run, told by its events: a callback settles either way once it has started and the calls it made have settled, the tail and the cleanup of an outermost call follow, once each, and a call made by code that runs for its project already can start at once |
| GitLock.EntriesAreExact | server/src/git/gitMutationLock.js:25-29 | an entry is dropped only when no later call is chained on it; an unsettled section has one; a project whose sections are all cleaned up has none |
| GitLock.NestedCallNeverQueues | server/src/git/MergeRequestService.js:105-136 | a call for a project already held, as `create` makes through `pushBranch`, leaves the tails alone and can start at once |
| GitLock.NestedStaysStartable | server/src/github/GitOperationService.js:508-519 | no other step ever makes such a nested call wait |
| GitLock.UnsettledCanGoOn | server/src/git/gitMutationLock.js:15-24 | while nesting stays on one project, as long as a call is unsettled some reaction is possible |
| GitLock.ReactionUsesWork | server/src/git/gitMutationLock.js:15-29 | each reaction uses exactly one unit of the work that is left |
| GitLock.EverythingFinishes | server/src/git/gitMutationLock.js:15-29 | while nesting stays on one project, without new calls every run ends, with all calls settled and cleaned up and the map of tails empty |
| GitLock.QueueOnlyShrinks | server/src/git/gitMutationLock.js:18-25 | new calls never lengthen the queue in front of a call, and each start, settlement or tail there shortens it by one |
| GitLock.HeadOfQueueCanStart | server/src/git/gitMutationLock.js:18-20 | a waiting call with nothing in front of it can start |
| GitLock.QueueAheadCanMove | server/src/git/gitMutationLock.js:18-25 | however many calls keep coming, a call with others in front of it never waits in vain, while callbacks of that project call the lock for it only: the first of them, or a call nested in it, has a possible reaction |
| GitLock.CrossNestingCanStick | server/src/git/gitMutationLock.js:12-30 | one-project nesting is needed: two callbacks awaiting each other's project never go on |
| GitLockDeadlock.FinishesExactlyWithoutCycle | server/src/git/gitMutationLock.js:12-30 | whatever the nesting, a run without new calls ends, and then all calls have settled and the map is empty if and only if no calls waited for each other in a cycle |
| GitLockDeadlock.CycleIsForever | server/src/git/gitMutationLock.js:18-24 | calls that wait for each other in a cycle never settle, whatever else happens |
| Singleflight.OneFlightPerKey | server/src/runtime/singleflight.js:6-13 | at most one function per key is between its call and its cleanup |
| Singleflight.RunningFlightsDiffer | server/src/runtime/singleflight.js:6-13 | two functions that run at the same time have different keys |
| Singleflight.CleanupRemovesItsOwnEntry | server/src/runtime/singleflight.js:8-10 | the unconditional delete removes its own flight's entry and never a later one |
| Singleflight.CallersGetTheirFlight | server/src/runtime/singleflight.js:7-12 | a call joins the flight of its key exactly when one is not cleaned up, and is later given that flight's outcome |
| Singleflight.SharersAgree | server/src/runtime/singleflight.js:7-12 | callers of one flight never see different outcomes |
| SingleflightAnswers.AnswersExactly | server/src/runtime/singleflight.js:6-13 | in every run a caller is answered exactly once its answer was delivered, with the outcome of the flight that was open for its key at its call, or else of a new one; a flight has one outcome at most |
| SingleflightAnswers.NextExactly | server/src/runtime/singleflight.js:6-13 | what can follow any run, told by its events: a flight starts, ends with any outcome and is cleaned up, once each and in this order, and its callers are answered after that, once each |
| Singleflight.EverybodyIsAnswered | server/src/runtime/singleflight.js:6-13 | without new calls every run ends, with every caller answered and the map empty |
| BuildQueueInvariant.StepKeepsInv | server/src/runtime/AgentBoxImageService.js:278-404 | every step keeps permits, waiters, executions, rows and wake-ups consistent, even when the loop fails |
| BuildQueueRuns.PermitsNeverLeak | server/src/runtime/AgentBoxImageService.js:280-306 | permits taken are the loop's own, one per unreleased execution and the other holders', never more than the maximum |
| BuildQueueRuns.RunAdvances | server/src/runtime/AgentBoxImageService.js:295-297 | in every run a build only goes queued, building, ready or failed, deleted, and results never change |
| BuildQueueRuns.StepAdvances | server/src/runtime/AgentBoxImageService.js:358-374 | one step takes a queued build at most to building, a building one at most to ready or failed |
| BuildQueueRuns.ExecutedOnce | server/src/runtime/AgentBoxImageService.js:298-300 | a build is executed at most once, exactly once when it has a result, not at all while queued |
| BuildQueueResults.StatesExactly | server/src/runtime/AgentBoxImageService.js:358-374 | in every run a build is ready if and only if its execution reported success, failed if and only if it reported a failure, and in both cases no delete came since; a deleted build had exactly one of the two, and a build is queued if and only if it was never marked |
| BuildQueueResults.NextExactly | server/src/runtime/AgentBoxImageService.js:286-378 | what can follow any run, told by its events: each execution starts, reports any result, calls the loop and releases its permit, once each and in this order; rows with a result can be deleted; the read answers with an oldest queued build, or none when none is queued |
| BuildQueueResults.AnyTime | server/src/runtime/AgentBoxImageService.js:286-305 | requests can follow any run; and the loop can fail exactly where it can read the queue or mark a build |
| BuildQueueResults.MarksOldest | server/src/runtime/AgentBoxImageService.js:286-297 | in every run the build that is marked is as old as any that was queued when the loop read it |
| BuildQueueResults.OldestFirst | server/src/runtime/AgentBoxImageService.js:286-297 | in every run no build leaves the queue twice, and none before an older one inserted before it |
| BuildQueueResults.FirstInFirstOut | server/src/runtime/AgentBoxImageService.js:286-297 | when each build is younger than those before it, they leave the queue in the order of their inserts |
| BuildQueueRuns.NothingQueuedIsForgotten | server/src/runtime/AgentBoxImageService.js:280-400 | while a build is queued there is a busy loop, a pending insert or wake-up, or an execution that will call the loop, unless a run of the loop was dropped |
| BuildQueueRuns.AtomicReadsDropNothing | server/src/runtime/AgentBoxImageService.js:286-293 | with the read of an empty queue and its continuation as one step, and no failing statement, no run is dropped |
| BuildQueueProgress.ReactionUsesWork | server/src/runtime/AgentBoxImageService.js:280-378 | each step the system takes by itself uses up work |
| BuildQueueProgress.QueueDrains | server/src/runtime/AgentBoxImageService.js:280-378 | without new requests every run ends, with all permits free, the loop idle and, unless dropped, a result for every build whose row could be updated |
| BuildQueueProgress.EveryBuildGetsItsResult | server/src/runtime/AgentBoxImageService.js:280-378 | with atomic reads a run that cannot go on leaves every build with its result, or one whose row could not be updated; with no failed update every build has its result |
| BuildQueueStaysQueued.StaysQueuedExactly | server/src/runtime/AgentBoxImageService.js:280-306 | after every run that cannot go on, a build is still queued if and only if it was inserted after the last answer, an empty one, or a statement failed while one was queued and nothing called the loop after that |
| BuildQueueStaysQueued.StaysQueuedWithoutFailures | server/src/runtime/AgentBoxImageService.js:286-293 | with no failing statement, if and only if the last read of the queue was empty and an insert came after it |
| BuildQueueLostWake.WakeUpCanBeLost | server/src/runtime/AgentBoxImageService.js:281-293 | the input: a run of 15 steps that leaves a build queued with nothing that will look at it |
| Provisioning.StepKeepsInv | server/src/server.js:1435-1731 | every step of provisioning, deletes and the exit callback keeps handles owned and statuses consistent |
| Provisioning.NoHandleLeaks | server/src/server.js:1694-1712 | in every run, once provisioning has finished each handle was killed or is the manager's; with an atomic guard, once a delete has finished too, all were killed and there is no entry |
| Provisioning.MarkedDeleteStopsProvisioning | server/src/server.js:1474-1477 | after a delete's mark provisioning stops at the next check, and the guard kills a spawned handle |
| ProvisioningOutcome.StatusExactly | server/src/server.js:1435-1731 | in every run the row is what the last write of provisioning, of a delete or of the exit callback says, where a failure is not written over the mark of a delete |
| ProvisioningOutcome.FinishedIsNotPending | server/src/server.js:1459-1463 | in no run is the row still pending once provisioning has finished |
| ProvisioningOutcome.FailedExactly | server/src/server.js:1619-1692 | in every run the row is failed if and only if provisioning reported a failure and no delete marked the row; it reports one if and only if the preparation, the configuration, a spawn without a recreated runtime or a second spawn failed; a failed spawn is tried at most once more, and only after the runtime was recreated |
| ProvisioningOutcome.ChecksExactly | server/src/server.js:1474-1477 | in every run provisioning has gone through its steps in the order of the script, and each check goes on if and only if no delete has marked the row |
| ProvisioningOutcome.ScriptsRun | server/src/server.js:1435-1731 | the whole script can run, with a first spawn that fails or without, and ends with a running row; each script broken by a failing step can run and ends with a failed one |
| Provisioning.ExitedNeverFails | server/src/server.js:87-100 | in every run no later step turns an exited, running or idle row into failed or pending |
| Provisioning.ExitedIsFinal | server/src/server.js:1721-1726 | in every run an exited row stays exited in every continuation if and only if no `running` write is due and no exit callback can still write `idle` |
| Provisioning.FinishedDeleteIsFinal | server/src/server.js:1023-1064 | after provisioning and a delete have finished, the exited row stays exited in every continuation if and only if no exit callback is about to write `idle` |
| ProvisioningLeaks.ExitCallbackOverwrites | server/src/session/resumeSession.js:50-64 | the input: a run with an atomic guard and a finished delete, after which the exit callback writes `idle` |
| ProvisioningLeaks.LeaksExactly | server/src/server.js:1694-1726 | in every run, once provisioning has finished, an entry is left if and only if the guard registered the handle and no delete removed the entry after that, and a handle lives if and only if no delete killed it after that either |
| ProvisioningLeaks.SplitGuardLeaks | server/src/server.js:1694-1712 | the input: a delete inside the guard leaves a live handle, its entry and a running row |
| ProjectDelete.RoundsRespectGraph | server/src/db/schema.js:73-117 | every referring table is deleted in an earlier round than the table it refers to |
| ProjectDelete.BlockedExactly | server/src/db/schema.js:73-117 | on every consistent database a statement fails if and only if another table's row stands in its way: a checkpoint for sessions and snapshots, a session or a deployment for runtimes, any row but streams and configs for the project; when it succeeds its rows are gone, with the streams and configs of its sessions, and no others |
| ProjectDeleteQuiet.StatementSucceeds | server/src/projects/deleteProject.js:90-116 | a statement violates no foreign key once the rows of the tables that refer to its table are gone |
| ProjectDeleteQuiet.NoForeignKeyFails | server/src/projects/deleteProject.js:90-116 | when references stay within the project no statement fails, in any order inside the rounds |
| ProjectDeleteQuiet.SucceedsExactlyWithin | server/src/projects/deleteProject.js:78-128 | with nothing written meanwhile the delete ends, and succeeds, in the first attempt, if and only if no outside row refers to the project; then exactly its rows are gone |
| ProjectDeleteQuiet.SharedRuntimeBlocksDelete | server/src/projects/deleteProject.js:78-128 | the input: a session of another project on a runtime of this one; every run of the delete then fails |
| ProjectDelete.AnyWrite | server/src/db/schema.js:73-117 | other requests can insert and update any row whose references exist, with all of them or with the required ones only |
| ProjectDelete.SuccessLeavesNothing | server/src/projects/deleteProject.js:78-128 | with any concurrent inserts and updates, success means the project and all its rows are gone and nothing refers to it |
| ProjectDeleteRetries.GivesUpExactly | server/src/projects/deleteProject.js:78-126 | whatever is written meanwhile, a run ends in failure if and only if three attempts have failed, and there are never more |
| ProjectDeleteRetries.LeftAloneDecides | server/src/projects/deleteProject.js:78-126 | if nothing is written from the beginning of one of the three attempts on, late statements of earlier rounds included, the rest of the run is bounded and ends in success if and only if references then stay within the project |
| ProjectDelete.OtherProjectsUnchanged | server/src/projects/deleteProject.js:78-128 | rows that do not belong to the project are unchanged, late statements of failed rounds included |
| ProjectDelete.OnlyOwnRowsGo | server/src/projects/deleteProject.js:98-103 | a statement with a stale list of session ids still deletes rows of the project only |
| ProjectDelete.StepKeepsInv | server/src/projects/deleteProject.js:78-128 | every step of the delete and of other requests keeps the database consistent and the id lists owned |
| ProjectDatabase.Database.ExecuteRound | server/src/projects/deleteProject.js:89-109 | all statements of a round run; when the round succeeds none of them has a row left to match, and it succeeds when references stay within the project |
| ProjectDatabase.Database.Execute | server/src/projects/deleteProject.js:90-116 | a statement fails if and only if a row that stays would refer to one that goes, and then changes nothing; else no row it matches is left, only those and what hangs on them went, and no row lost what it refers to; consistency is kept, and rows of others stay |
| ProjectDatabase.Database.RunAttempt | server/src/projects/deleteProject.js:81-117 | the four rounds in order, up to the first that fails |
| ProjectDatabase.Database.DeleteProjectForUser | server/src/projects/deleteProject.js:78-128 | the retry loop succeeds in its first attempt when references stay within the project, and else gives up after three, with all other rows in place |
| Deframer.StreamDeframer.Feed | server/src/runtime/BlaxelExecAdapter.js:135-173 | a chunk is read after the text held back, with a frame boundary at its start |
| Deframer.StreamDeframer.Flush | server/src/runtime/BlaxelExecAdapter.js:174-178 | the text held back is returned and forgotten |
| Deframer.HeldAfterScan | server/src/runtime/BlaxelExecAdapter.js:153-165 | held-back text is empty, a proper prefix of a marker, or a keepalive line with no newline yet |
| Deframer.CutTheorem | server/src/runtime/BlaxelExecAdapter.js:125-173 | feeding a and then b equals feeding a + b if and only if the cut is harmless |
| Deframer.ChunkingTheorem | server/src/runtime/BlaxelExecAdapter.js:125-173 | with harmless cuts any list of chunks gives the output and pending text of the whole |
| Deframer.ChunkingExactly | server/src/runtime/BlaxelExecAdapter.js:125-173 | for every list of chunks: output and pending text are those of the whole if and only if nothing was cut out of the inside of a line and nothing is held back inside one at the end |
| Deframer.MarkerInsideLineIsLost | server/src/runtime/BlaxelExecAdapter.js:130-150 | the family of inputs: a marker in a chunk of its own, after plain text of its line, is always lost |
| Deframer.CutsThatShowOrNot | server/src/runtime/BlaxelExecAdapter.js:125-173 | the inputs: `abc`, `stdout:` differ from the whole; `abc`, `std`, `x` do not, although the first cut is harmful |
| DeframerLines.RoundTrip | server/src/runtime/BlaxelExecAdapter.js:130-180 | framed lines, keepalives and unframed lines come out as exactly their payloads, even payloads that begin with a marker, with nothing held back, if and only if no chunk has something cut out of the inside of a line; so they do with harmless cuts |
| DeframerLines.ReadsLines | server/src/runtime/BlaxelExecAdapter.js:131-170 | any text, told by its lines: lines that begin with `stdout:` or `stderr:` lose these seven characters, `[keepalive]` lines go, all others come out as they are; the rest after the last newline likewise, except that it is held back while it is a keepalive or a beginning of one of the three |
| DeframerLines.EveryTextIsLines | server/src/runtime/BlaxelExecAdapter.js:131-170 | every text is such a list of lines and a rest |
| DeframerLines.UnmarkedTextPasses | server/src/runtime/BlaxelExecAdapter.js:125-130 | lines that none of the three markers begins pass byte for byte, blank ones included and after framed ones too, and of an unfinished one output and held-back text together are the input |
| BindingsUpsert.RemoveTheorem | server/src/llm/agentServiceToml.js:62-91 | removal takes away exactly the agent's bindings tables |
| BindingsUpsert.UpsertTheorem | server/src/llm/agentServiceToml.js:93-127 | the bindings after an upsert are those of other services in order, followed by the new one |
| BindingsUpsert.SyncTheorem | server/src/llm/agentServiceSync.js:145-156 | the fold over distinct agents keeps all other bindings in order and appends one per agent |
| BindingsUpsert.SyncedAgentHasOneProvider | server/src/llm/agentServiceSync.js:145-156 | a synchronised agent is bound to the wanted provider and to no other |
| UpsertTwice.UpsertIsIdempotent | server/src/llm/agentServiceToml.js:62-127 | upserting the same pair twice gives the same string as once |
| BindingTables.HeaderExactly | server/src/llm/agentServiceToml.js:6-7 | a line is a table header if and only if it is two brackets, a name on one line and two brackets, with nothing before and only white space after |
| BindingTables.ValueExactly | server/src/llm/agentServiceToml.js:9-16 | a line sets a key to a value if and only if it is the key, an equals sign and the value in quotes, with white space only around the sign and at the end |
| BindingTables.BindingsRead | server/src/llm/agentServiceToml.js:24-44 | the bindings of a file are those of its tables named bindings, in order, by the first service and provider in each, whatever other tables and whatever lines before the first one |
| ServiceBlocks.FoundExactly | server/src/llm/agentServiceToml.js:46-48 | a service is found if and only if the text holds a word `id`, an equals sign and its id in quotes, with white space only between them |
| ServiceBlocks.ServiceIsWritten | server/src/llm/agentServiceToml.js:93-118 | when the id is quoted nowhere in the text, both tables are appended to the trimmed text, line by line as written |
| AgentServiceToml.ForEachBindingsTable | server/src/llm/agentServiceToml.js:24-44 | each bindings table is visited once, in order, with its body and line range |
| AgentServiceToml.HasBinding | server/src/llm/agentServiceToml.js:50-60 | true exactly when a bindings table has the pair |
| AgentServiceToml.RemoveBindingsForService | server/src/llm/agentServiceToml.js:62-91 | the line loop computes the removal |
| AgentServiceToml.AppendAgentService | server/src/llm/agentServiceToml.js:93-118 | missing service and binding blocks are appended to the trimmed text |
| AgentServiceToml.UpsertAgentServiceBinding | server/src/llm/agentServiceToml.js:124-127 | stale bindings are removed before the new one is appended |
| AgentServiceToml.SyncAll | server/src/llm/agentServiceSync.js:145-167 | the text is the fold of upserts, `changed` says whether any altered it, and every reported flag is false |
| AgentServiceToml.ChangedFlagIsWrong | server/src/llm/agentServiceSync.js:148-155 | whenever the pair was not bound before, the text changes although the reported flag says that it did not |
| AgentServiceToml.FirstFlagIsWrong | server/src/llm/agentServiceSync.js:148-155 | the input: any agent in an empty file |
| ProviderSecrets.ParseProvidersFromToml | server/src/gateway/readProviderSecrets.js:4-27 | the loops over blocks and lines compute the providers |
| ProviderSecrets.ProvidersByLines | server/src/gateway/readProviderSecrets.js:6-25 | for every text, splitting it at the marks reads the same as an independent line-by-line reader, marks inside lines included |
| ProviderValues.FlagLine | server/src/gateway/readProviderSecrets.js:14-22 | whatever white space there is, `key = true` and `key = false` set the key to these flags, and any other value that is not quoted sets nothing |
| ProviderValues.QuotedLine | server/src/gateway/readProviderSecrets.js:14-22 | a quoted value is read up to its closing quote with the escaped quotes in it unescaped, whatever follows |
| ProviderValues.OtherLines | server/src/gateway/readProviderSecrets.js:12-22 | blank lines, comments and lines without an equals sign set nothing |
| ProviderTables.TablesRoundTrip | server/src/gateway/readProviderSecrets.js:4-27 | written provider tables are read back as their settings, the last one of a key, and those without a name are left out |
| UpsertKeepsProviders.UpsertKeepsProviders | server/src/llm/agentServiceToml.js:62-127 | for every text an upsert changes nothing the provider parser reads if and only if no provider is read from inside a bindings table of the agent; else providers are lost; with marks only in header lines nothing is |
| UpsertKeepsProviders.SyncKeepsProviders | server/src/llm/agentServiceSync.js:145-156 | a whole synchronisation changes nothing that is read if and only if none of its steps does |
| ProviderLost.UpsertCanLoseProvider | server/src/llm/agentServiceToml.js:62-91 | the input: a bindings table of the agent with the mark in a comment and a name after it |
| GraphLog.ParseGraphLog | server/src/git/LocalGitService.js:808-860 | the loop with its pending graph lines computes the commits |
| GraphLog.RefsRoundTrip | server/src/git/LocalGitService.js:834-846 | the decorations git prints are read back as their refs |
| GraphLog.CommitRoundTrip | server/src/git/LocalGitService.js:823-857 | one printed commit is read back with its graph, fields and refs, its time rounded to a double |
| GraphLog.FieldsRead | server/src/git/LocalGitService.js:823-857 | of any line with a NUL: missing fields are empty, a time that is missing or no numeral is 0, and further fields do not matter |
| GraphLog.GraphLogRoundTrip | server/src/git/LocalGitService.js:648-655 | parsing the printed log gives back exactly the commits with their times rounded, whatever connector lines stand between them; all times are unchanged if and only if doubles can hold them |
| GraphLog.LargeTimeIsRounded | server/src/git/LocalGitService.js:829 | times below 2^53 are unchanged; the input: 9007199254740993 comes back as 9007199254740992 |
| GraphLog.LogRoundTrip | server/src/git/LocalGitService.js:511-523 | the same for getLog, whose subjects may hold blanks |
| GraphLog.ShortRow | server/src/git/LocalGitService.js:515-523 | rows with one blank or none lose their last character where indexOf gives -1 |
| Doubles.ReadExactly | server/src/git/LocalGitService.js:829 | a numeral is read as the number it stands for if and only if it has at most 53 significant binary digits and is below 2^1024 |
| SafePath.ResolveSafePath | server/src/workspace.js:27-98 | a result is the lexical path, under the root; it is given if and only if that path is under the root and every link on the way, by its text when it is dangling, leads under the real root; when links resolve that is if and only if all that exists of it is really inside the real root, and then its real location is |
| SafePath.ContainedIsInside | server/src/workspace.js:36-98 | a path whose existing prefixes are inside the real root has its real location inside that of the root |
| SafePath.WalkParts | server/src/workspace.js:43-91 | `resolvedReal` is the real path of the prefix walked, for every turn of the loop |
| SafePath.OrdinaryInput | server/src/workspace.js:28-34 | an ordinary relative path is taken as it is, no component lost, changed or moved |
| SafePathInputs.LexicalExactly | server/src/workspace.js:28-34 | any input whose backslashes are all in front leads to the root and the components left when each later `..` has taken one back, counted from the last one; leading slashes, backslashes and climbs are dropped, and a NUL or a first component that begins with two dots is refused |
| SafePathInputs.LexicalLaws | server/src/workspace.js:31-34 | for any components before and after: a component and a `..` behind it, a `.`, an empty component, and a `..` in front change nothing |
| SafePathInputs.BackslashClimbsDropped | server/src/workspace.js:32 | climbs that end in a backslash are dropped too |
| SafePathInputs.LinkTextLeads | server/src/workspace.js:70-80 | the text of a dangling link leads from its directory to the components that are left |
| SafePath.LexicalIsPlain | server/src/workspace.js:28-34 | the absolute path of any input has no empty, `.` or `..` component |
| SafePath.RelativeIs | server/src/workspace.js:45-50 | the relative path starts with a climb exactly when the path is not under the root |
| SafePath.RealpathStep | server/src/workspace.js:52-90 | one more component is missing, a link, or the real path extended by its name |
| SemVer.CompareVersions | server/src/agents/agentLifecycle.js:187-226 | the index loops with their early returns compute the comparison |
| SemVer.AntisymmetricExactly | server/src/agents/agentLifecycle.js:187-226 | antisymmetric on all non-empty strings if and only if not decided by two overflowing numbers, numbers before them being rounded to the same doubles |
| SemVer.OverflowIsNotReflexive | server/src/agents/agentLifecycle.js:194-200 | a number is above itself if and only if it is 2^1024 - 2^970 or more, else equal |
| Doubles.RoundsToNearest | server/src/agents/agentLifecycle.js:194-195 | a numeral is read as a double, and no double is nearer |
| Doubles.ReachesExactly | server/src/agents/agentLifecycle.js:194-195 | rounding reaches a power of two from half a unit below it, so exactly the numerals from 2^1024 - 2^970 on overflow |
| SemVer.AgreesWithTheStandard | server/src/agents/agentLifecycle.js:194-225 | on printed versions whose alphanumeric identifiers are above all numerals it is the precedence of section 11 |
| SemVer.TextsInOrder | server/src/agents/agentLifecycle.js:220-222 | texts are ordered by the first character that differs, a prefix first |
| SemVerCores.CoresInOrder | server/src/agents/agentLifecycle.js:192-201 | for cores of any lengths the first number that differs decides, and missing ones are 0 |
| SemVerCores.ComponentReads | server/src/agents/agentLifecycle.js:194-195 | a component is read up to its first character that is no digit, behind white space and a sign |
| SemVerCores.NoNumberReads | server/src/agents/agentLifecycle.js:194-195 | a component that begins with no number counts as 0 |
| SemVerCores.LeadingV | server/src/agents/agentLifecycle.js:190-191 | a leading v does not count |
| SemVerOrder.SortableTransitive | server/src/agents/agentLifecycle.js:187-226 | the comparison is transitive on printed versions whose alphanumeric identifiers are above all numerals or start with 0, whatever is rounded, when no number of the core overflows |
| SemVerOrder.NumeralsAgreeExactly | server/src/agents/agentLifecycle.js:214-219 | two numeric identifiers compare as the standard wants if and only if they are equal or not rounded to the same |
| SemVerOrder.RoundedNumeralsAreEqual | server/src/agents/agentLifecycle.js:214-219 | the input: 9007199254740992 and 9007199254740993 compare as equal |
| SemVerOrder.FollowsNumeralsExactly | server/src/agents/agentLifecycle.js:214-222 | an alphanumeric identifier follows every numeric one if and only if its first character that is not a 9 is a letter |
| SemVerOrder.CycleExactly | server/src/agents/agentLifecycle.js:214-222 | an alphanumeric identifier is in a cycle with two numeric ones if and only if its first character that is not a 9 is no letter and it does not start with 0 |
| SemVerOrder.DigitFirstCycle | server/src/agents/agentLifecycle.js:214-222 | the input: 9 < 10 < 1a < 9 |
| RefreshTokens.RotatedAtMostOnce | server/src/admin/UserAdminService.js:32-52 | in every run a token is rotated successfully at most once |
| RefreshTokens.LoginHasOneLiveToken | server/src/admin/UserAdminService.js:491-504 | each login has exactly one unrevoked descendant until a revoke-all for its user, and none after it |
| RefreshTokens.RotatesExactlyUsable | server/src/admin/UserAdminService.js:15-52 | in every run a rotation succeeds if and only if a login or a successful rotation made the token for that user less than 30 days ago, and it has not been rotated or revoked since |
| RefreshTokens.AnyCanFollow | server/src/admin/UserAdminService.js:15-58 | after every run a revoke-all is possible, and a login or rotation with any new token |
| RefreshTokens.RefreshTokenTable.RotateRefreshToken | server/src/admin/UserAdminService.js:32-52 | the row found is revoked and a row for the new token of the same login added, or nothing changes |
| RefreshTokens.RefreshTokenTable.CreateRefreshToken | server/src/admin/UserAdminService.js:15-30 | one row is added, valid for 30 days |
| RefreshTokens.RefreshTokenTable.IssueAtLogin | server/src/admin/UserAdminService.js:491-504 | a login adds one row, the root of its chain |
| RefreshTokens.RefreshTokenTable.RevokeAllUserRefreshTokens | server/src/admin/UserAdminService.js:54-58 | all rows of the user, and no others, are revoked |
| Quota.KeysAreInjective | server/src/llm/quota.js:15-18 | different users or minutes never share a bucket |
| Quota.SlotOfKey | server/src/llm/quota.js:29-31 | the cleanup reads back the minute that was printed into the key |
| Quota.MinutesAreExact | server/src/llm/quota.js:29-31 | and no minute of the clock is rounded when it is read |
| Quota.CheckOf | server/src/llm/quota.js:56-77 | one call changes its own bucket only, and cleanup drops buckets of past minutes only |
| Quota.CleanupOf | server/src/llm/quota.js:24-36 | at most once in 60 000 ms the buckets of minutes that are over go, and no others |
| Quota.AtMostLimitPerSlot | server/src/llm/quota.js:56-77 | at most `limit` admissions of a user in a minute |
| Quota.AdmittedExactlyBelow | server/src/llm/quota.js:62-71 | a call is admitted if and only if the loaded start and the admissions since are below the limit |
| Quota.TiersAdmit | server/src/llm/quota.js:4-9 | with what the store held for its minute, a call is refused once 12 (basic and unknown), 30 (standard), 60 (pro) or 120 (enterprise) are counted |
| Quota.AtMostTwiceInAnyMinute | server/src/llm/quota.js:15-36 | at most twice the limit in any closed interval of 60 000 ms |
| Quota.TwiceTheLimitIsReached | server/src/llm/quota.js:15-18 | the bound is tight: twice the limit is reached within one millisecond at a turn of the minute |
| Quota.RequestQuota.CleanupExpiredBuckets | server/src/llm/quota.js:24-36 | exactly the buckets of past minutes are dropped, at most once a minute |
| Quota.RequestQuota.LoadBucketCount | server/src/llm/quota.js:38-50 | a bucket in memory is used, else a positive stored number, else 0, and the bucket is kept |
| Quota.RequestQuota.CheckLlmRequestQuota | server/src/llm/quota.js:56-77 | admins pass; others are counted, refused at the limit |
| Truncate.TruncateText | server/src/git/diffUtils.js:14-29 | a prefix of at most maxBytes bytes; kept and omitted add up to the total; at least nine tenths of maxBytes / 3 + 1 code units are kept, and a longer prefix in steps of nine tenths would be too long |
| Truncate.BytesAreOctets | server/src/git/diffUtils.js:16-19 | the byte length is that of the UTF-8 encoding, with lone surrogates as U+FFFD |
| Truncate.BytesOfCut | server/src/git/diffUtils.js:23-28 | the lengths of two parts add up to the whole, with 2 more exactly when the cut separates a surrogate pair |
| Truncate.OmittedIsTheRest | server/src/git/diffUtils.js:23-28 | the reported omission is the length of the rest, or 2 less exactly at such a cut |
| Truncate.EmojiIsCut | server/src/git/diffUtils.js:14-29 | the input: an emoji cut to 3 bytes, of which 1 is reported as omitted while 3 were |
| Truncate.LooksBinary | server/src/git/diffUtils.js:6-12 | a NUL anywhere, or a control character in the first 8192 code units |
| Truncate.LimitFileSide | server/src/git/diffUtils.js:56-77 | binary content is blanked, long content cut; kept and omitted bytes add up |
| Truncate.LimitDiffText | server/src/git/diffUtils.js:31-54 | a truncated diff is the kept prefix and a notice, and exceeds maxBytes by no more than the notice |
| GitLock.ProjectGitLock.WithProjectGitLock | server/src/git/gitMutationLock.js:12-30 | the new call is nested, or chained on the current tail and made the new tail |
| GitLock.ProjectGitLock.StartCallback | server/src/git/gitMutationLock.js:20-24 | the callback of a waiting call starts, nothing else changes, and the invariant holds |
| GitLock.ProjectGitLock.SettleCallback | server/src/git/gitMutationLock.js:20-24 | the callback settles, resolved or rejected, and the invariant holds |
| GitLock.ProjectGitLock.SettleTailPromise | server/src/git/gitMutationLock.js:24-25 | the tail settles after its callback whatever the outcome |
| GitLock.ProjectGitLock.RunCleanup | server/src/git/gitMutationLock.js:26-29 | the entry is deleted only when it is still the call's own tail |
| Singleflight.SharedFlights.Singleflight | server/src/runtime/singleflight.js:6-13 | the promise is the entry's, or that of a new flight which becomes the entry |
| Singleflight.SharedFlights.StartFunction | server/src/runtime/singleflight.js:8 | a scheduled function starts |
| Singleflight.SharedFlights.SettleFunction | server/src/runtime/singleflight.js:8 | a running function settles with its outcome; the entry is still there |
| Singleflight.SharedFlights.RunCleanup | server/src/runtime/singleflight.js:8-10 | the entry of the flight, and no other, is gone |
| Singleflight.SharedFlights.DeliverOutcome | server/src/runtime/singleflight.js:7-12 | a caller is given the outcome of its flight after the cleanup |
| AgentImageBuilds.Semaphore.Acquire | server/src/runtime/CustomImageService.js:48-57 | a permit is taken, or the caller joins the end of the queue |
| AgentImageBuilds.Semaphore.Release | server/src/runtime/CustomImageService.js:59-66 | the permit goes to the first waiter with the count unchanged, else the count drops but not below 0 |
| AgentImageBuilds.ImageBuildQueue.ProcessAgentBuildQueue | server/src/runtime/AgentBoxImageService.js:280-285 | it returns when the flag is set, else sets it and takes or awaits a permit |
| AgentImageBuilds.ImageBuildQueue.ReleaseGlobal | server/src/runtime/CustomImageService.js:59-66 | a released permit reaches the waiter it was handed to |
| AgentImageBuilds.ImageBuildQueue.BuildImage | server/src/runtime/AgentBoxImageService.js:389-398 | a queued row is added, with its wake-up still to be scheduled |
| AgentImageBuilds.ImageBuildQueue.ScheduleCall | server/src/runtime/AgentBoxImageService.js:400 | the wake-up of an inserted row is scheduled |
| AgentImageBuilds.ImageBuildQueue.RunImmediate | server/src/runtime/AgentBoxImageService.js:400 | a scheduled wake-up calls the loop |
| AgentImageBuilds.ImageBuildQueue.ReceiveQueued | server/src/runtime/AgentBoxImageService.js:286-294 | the loop holds the oldest queued build, or knows that there is none |
| AgentImageBuilds.ImageBuildQueue.EndEmptyRun | server/src/runtime/AgentBoxImageService.js:290-293 | after an empty read the permit is released and the flag cleared |
| AgentImageBuilds.ImageBuildQueue.MarkBuilding | server/src/runtime/AgentBoxImageService.js:295-297 | the build read is marked as building |
| AgentImageBuilds.ImageBuildQueue.FailRun | server/src/runtime/AgentBoxImageService.js:301-305 | after an error the permit is released and the flag cleared |
| AgentImageBuilds.ImageBuildQueue.StartExecution | server/src/runtime/AgentBoxImageService.js:308-316 | a dispatched execution starts |
| AgentImageBuilds.ImageBuildQueue.UpdateBuildRow | server/src/runtime/AgentBoxImageService.js:358-374 | the row becomes ready or failed, or stays when both updates fail |
| AgentImageBuilds.ImageBuildQueue.CallLoopAgain | server/src/runtime/AgentBoxImageService.js:377 | every execution calls the loop again at its end |
| AgentImageBuilds.ImageBuildQueue.FinishExecution | server/src/runtime/AgentBoxImageService.js:298-300 | and releases its permit after that |
| AgentImageBuilds.ImageBuildQueue.DispatchExecution | server/src/runtime/AgentBoxImageService.js:298-305 | the execution is scheduled with the loop's permit and the flag is cleared |
| AgentImageBuilds.ImageBuildQueue.RetryBuild | server/src/runtime/AgentBoxImageService.js:444-458 | only a failed build can be retried, and then a new queued build is inserted |
| AgentImageBuilds.ImageBuildQueue.DeleteBuild | server/src/runtime/AgentBoxImageService.js:460-473 | a queued or building build is refused, a missing one is not found, any other row is deleted |
| Provisioning.Session.ActOnGuard | server/src/server.js:1694-1719 | a handle is killed when the row is no longer pending, else handed to the manager with its exit callback |
| Provisioning.Session.EndPrepare | server/src/server.js:1449-1463 | a failed runtime preparation fails the session, else the first check follows |
| Provisioning.Session.CheckStillPending | server/src/server.js:1584-1587 | provisioning goes on only while the row is pending, at both checks |
| Provisioning.Session.EndConfigure | server/src/server.js:1486-1582 | a failing configuration step fails the session |
| Provisioning.Session.SaveWorkspaceRow | server/src/server.js:1589-1597 | the workspace is saved without touching the status, and the spawn follows |
| Provisioning.Session.ReadGuard | server/src/server.js:1694-1698 | the guard remembers whether the row was pending |
| Provisioning.Session.WriteRunningRow | server/src/server.js:1721-1726 | running is written whatever the row holds |
| Provisioning.Session.MarkSessionFailed | server/src/server.js:87-100 | only a pending or running row becomes failed, and the answer says whether it did |
| Provisioning.Session.EndSpawn | server/src/server.js:1619-1692 | a failed spawn is tried once more after the runtime was recreated, else the session fails |
| Provisioning.Session.OnAgentExit | server/src/session/resumeSession.js:50-64 | the callback writes idle when the session is still managed and recoverable, else exited |
| Provisioning.Session.WriteExitStatus | server/src/session/resumeSession.js:61-64 | the callback's status is written whatever the row holds |
| Provisioning.Session.BeginDelete | server/src/server.js:1023-1029 | a delete request starts; any number may run at once |
| Provisioning.Session.MarkDeleted | server/src/server.js:1031-1034 | the row is marked exited before anything is killed |
| Provisioning.Session.KillLiveHandle | server/src/server.js:1036-1046 | the handle of the manager's entry, if there is one, is killed |
| Provisioning.Session.DeleteSession | server/src/session/SessionManager.js:219-254 | the entry's handle is killed and the entry deleted |

## Left out

- NestedCallNeverQueues: nested calls are awaited by their callback before it settles; detached work that outlives its holder is not modelled.
- NothingQueuedIsForgotten: runs of the loop that fail on a database error, or are woken in vain, are marked as dropped and excepted; what they leave queued is said exactly by StaysQueuedExactly.
- NoHandleLeaks: a guard read that throws a database error would lose the spawned handle, because the outer catch does not kill it; database errors after the spawn are not modelled.
- MarkedDeleteStopsProvisioning: the best-effort termination of detached processes, for rows without a live handle, and the destruction of the virtual machine are not modelled; killing a handle always takes effect.
- ExitedIsFinal: hibernation, resume and the crash counter of the exit callback are not modelled; a first exit within one start never trips it.
- SuccessLeavesNothing: other requests insert and update rows; deletes by other requests, and updates that move a row to another project or session, are not modelled.
- SucceedsExactlyWithin: sessions, previews and virtual machines stopped before the rows are deleted, and the directory removed after, are not modelled.
- ResolveSafePath: the real location is claimed only when every link on the way resolves, because a dangling link has none; the file system does not change during a call; components are compared instead of path strings.
- LexicalExactly: inputs with a backslash behind their first other character are covered by BackslashClimbsDropped and OrdinaryInput only.
- UpsertTheorem: for ids that are not empty and hold no line break after the quotes are dropped.
- UpsertKeepsProviders: for ids that do not contain the mark `[[providers]]`, hold no line break and are not empty after the quotes are dropped.
- AtMostLimitPerSlot: calls that overlap are not covered, because the count is read and written on either side of an await; nor is a change of tier inside a minute.
- AgreesWithTheStandard: numbers below 2^53, where none is rounded, no build metadata, no hyphen inside the pre-release part.
- Doubles: parseInt and Number are taken to round to the nearest double, ties to even, as V8 does; ECMA-262 would let them treat digits after the 20th as 0.
- TruncateText: the factor 0.9 is a floating-point product in the code; rounded down it equals the integer quotient for every length a JavaScript string can have.
- GraphLogRoundTrip: timestamps are decimal numerals, rounded as the code's Number() does; other notations it reads (signs, fractions, exponents, hexadecimal) count as not a number.
- RotatedAtMostOnce: transactions are atomic and serial, token values fresh, and hashes stand for their tokens.
- Single-bracket TOML tables, comments and blank lines: results are stated on bindings tables and providers, not on the rest of the text.
- The custom image build loop: it appears only as other holders of the shared semaphore.
- LoadBucketCount: a stored count is a whole number, as the code itself writes it; a fraction put there by other means is not modelled, and writing to the store is best effort in the code.
- Build metadata, tags and Dockerfiles of image builds: they do not influence the queue.
- The second parser of git logs in GitOperationService: newlines between records stay in its fields, so it is no round trip.
- The sending order of web socket messages, the preview gateway and the Rust gateway: not part of this model.
- Processes, containers, the network and the database driver: they appear only as steps or outcomes.
- Characters: apart from Truncate, texts are sequences of Unicode characters, so lone surrogates are not considered and CompareText orders characters outside the basic plane by code point, where JavaScript compares code units; versions of the standard hold ASCII only.
