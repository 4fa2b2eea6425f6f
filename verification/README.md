# Verified model of the orchestration engine

Localoud runs plans of dependent coding tasks, hands conversations over between models, meters the
context they may fetch, edits files, and keeps transcripts per provider. This project restates that
deterministic core in Dafny and proves what it is relied on for. Foreign effects (processes, HTTP,
SQLite, Git, model calls) are arbitrary: they appear as nondeterministic choices, as parameters, or as
oracles that may answer anything.

| files | component |
|---|---|
| `Common.dfy`, `Graphs.dfy`, `Tasks.dfy` | options, blank text, dependency graphs and cycles, tasks and their life cycle |
| `Scheduler.dfy`, `Runs.dfy`, `RunTheorems.dfy`, `Execution.dfy` | the task graph object, the scheduler as a transition system with crashes, theorems over all its runs, the execution loop proved to be one of them |
| `Compilation.dfy`, `Plans.dfy` | compiling a plan, recovering it after a restart |
| `TaskGraph.dfy` | the layered view of a plan |
| `Utf8.dfy` | UTF-8 |
| `Evidence.dfy`, `Rendering.dfy`, `Closures.dfy`, `Handoffs.dfy`, `Selections.dfy`, `Drafts.dfy` | handoffs: sizes and the JSON text they measure, closure, checks, budgeted selection, drafts extracted from a conversation |
| `Ledger.dfy` | the context budget |
| `TextEdits.dfy`, `LocalEdits.dfy` | exact text edits, all-or-nothing application to files |
| `AgentLoop.dfy`, `Sessions.dfy` | the tool loop, provider segments and stored transcripts |
| `Diffs.dfy` | Git path quoting and the diff filter |
| `Cancellation.dfy` | cancelling commands by request id |
| `RoutingSettings.dfy` | migrating routing settings to agents and back |

How the main parts fit together:

- **Scheduler.** Whether a task's run succeeds is fixed by a set `good`; everything else (which ready
  task starts, which job ends first, how many run, when the process dies, whether a run that fails had
  already saved its outcome) is open. `Verdict` says where a task must end given where its dependencies
  end; a status map that satisfies all verdicts exists and is unique on an acyclic graph. Every step
  keeps the map that the live statuses lead to. Independence of order and the other theorems follow, and
  `Execute` is proved to take only such steps, none of them a crash. Tasks further down than the direct
  dependents of a failed task stay Pending rather than Blocked: `PendingEnd` says exactly which.
- **Crash recovery.** That a recovered plan reaches the end of the uninterrupted one is false in one
  situation: a run may save its outcome and fail afterwards (when memory capture and then the publication
  of that failure go wrong), and `recover` counts every saved outcome as a completed task. `Slipped` says
  when that has happened: a task with a saved outcome is Failed, or runs and is not `good`. A crash keeps
  the end exactly when nothing slipped (`CrashKeepsEndOfRunIff`, `CrashedPlanRecovers`); `SlippedOutcome`
  is a run of one task where it does not. The plan is recoverable and startable in either case.
- **Handoffs.** Sizes are the byte lengths of the compact JSON that the source measures: `Rendering` writes
  that JSON out and proves every size function right about it, so the budget holds of the written text and
  growth of the packed size is proved rather than assumed. The greedy loop only ever adds, so a group refused once is
  refused for the final selection too. Which maximal set comes out is fixed: it is the one candidate that
  prefers later groups throughout (`PrefersLatest`, `LatestIsUnique`).
- **Ledger.** The early check and the transactional commit are separate actions of an interleaving.
  `CheckAloneIsNotEnough` shows two clients that both pass the check; the bound comes from the commit.
- **File apply.** A `Faults` schedule says of every read whether it works and of every write whether it
  works, fails without effect (perhaps leaving its temporary file) or fails after taking effect. What
  `apply` reports and what it leaves behind is stated as a function of the schedule (`Expected`,
  `FilesAfterUndo`). The promise "an error without `rollback_failed` means nothing changed" holds exactly
  when not `BlindFailure`: the first write that does not hold took effect, and the one read that should
  find that out fails. With working reads it always holds; `SilentlyApplied` is a schedule that breaks it.
- **Provider state.** The tool loop is proved against the chain of requests it sends; the session tables
  are proved to keep, for any sequence of target changes, profile revisions and turns, every opaque
  provider state with the target and revision that produced it.

Other places where code and expectation part, each with a lemma that says exactly where: the count
without overlaps accepts "aa" in "aaa" (`CountedOnceIff`, `CountedOnceMayOccurTwice`); a path in a diff
header is recovered from what Git writes exactly when it is UTF-8 and free of the bytes 7, 8, 11 and 12,
for which Git writes `\a`, `\b`, `\v` and `\f` (`HeaderPathUndoesGitIff`, `BellIsRefused`); a diff from
which nothing is held back is shown whole exactly when it is empty or begins with `diff --git `, for text
before the first block is dropped without `omitted` being set (`FilterDiff`, `LeadIsDropped`); a fallback
the user never set goes on following level 3 after a sync, whatever agent the fallback route names
(`SyncedTargets`).

## Model

| member | source | states |
|---|---|---|
| Graphs.RankedIsAcyclic | crates/hub-scheduler/src/lib.rs:35-49 | a graph whose nodes can be numbered so that every dependency lowers the number has no dependency cycle |
| Graphs.StuckRoundHasCycle | crates/hub-scheduler/src/lib.rs:35-49 | a round that finds no task although some are left exhibits a real cycle |
| Graphs.RoundsComplete | crates/hub-scheduler/src/lib.rs:35-49 | rounds that reach every task rule cycles out |
| Graphs.AcyclicIsRanked | crates/hub-scheduler/src/lib.rs:35-49 | conversely an acyclic closed graph is exhausted by rounds, which number it |
| Graphs.TightRankIsLongestChain | apps/desktop/src/task-graph.ts:9-19 | the number of the round that reaches a node is the length of its longest dependency chain |
| Scheduler.Dag.New | crates/hub-scheduler/src/lib.rs:14-51 | accepts exactly the non-empty single-project task lists with distinct ids, proper dependencies and no cycle; a refusal for a cycle means there is one |
| Scheduler.Dag.CheckDependencies | crates/hub-scheduler/src/lib.rs:24-34 | a task's dependencies pass exactly when they are known, distinct and not the task itself |
| Scheduler.Dag.FindRounds | crates/hub-scheduler/src/lib.rs:35-50 | the round loop terminates and succeeds exactly on acyclic graphs; its failure comes with a cycle |
| Scheduler.Dag.Refresh | crates/hub-scheduler/src/lib.rs:52-71 | every waiting task is re-judged against the statuses before the call, and nothing but statuses changes |
| Scheduler.Dag.Transition | crates/hub-scheduler/src/lib.rs:72-86 | moves one task exactly along the allowed transitions; a refused move changes nothing |
| Tasks.FinalStatuses | crates/hub-core/src/lib.rs:75-88 | Completed and Cancelled are exactly the statuses that nothing leaves |
| Tasks.CancelledFromAnywhere | crates/hub-core/src/lib.rs:75-88 | whatever is not finished can be cancelled |
| Tasks.CompletedAfterReview | crates/hub-core/src/lib.rs:75-88 | over any history of transitions, a task that completes was ready, then ran, then was reviewed |
| Runs.SolutionIsUnique | crates/hub-scheduler/src/lib.rs:93-135 | fixed successes and failures leave at most one end for given statuses of an acyclic graph |
| Runs.SolutionExists | crates/hub-scheduler/src/lib.rs:93-135 | and they leave at least one |
| Runs.RefreshKeepsSolution | crates/hub-scheduler/src/lib.rs:52-71 | refreshing changes statuses but not where they lead |
| Runs.QuiescentIsFinal | crates/hub-scheduler/src/lib.rs:97-130 | when a refresh leaves nothing ready and nothing runs, the statuses are the end they lead to |
| Runs.StepKeepsSound | crates/hub-scheduler/src/lib.rs:93-135 | every step keeps: live statuses lead to the same end, and so do the stored rows apart from outcomes that slipped; nothing is in flight before its dependencies completed; the jobs are exactly the running tasks within the limit; success is reported only with a saved outcome |
| Runs.CrashKeepsEndIff | crates/hub-runtime/src/plan.rs:90-102 | what the stored rows and outcomes recover to leads to the same end exactly when no outcome slipped |
| RunTheorems.RunStaysSound | crates/hub-scheduler/src/lib.rs:93-135 | the same at every point of every run |
| RunTheorems.OneEnd | crates/hub-scheduler/src/lib.rs:93-135 | any two finished runs from the same statuses end with the same statuses: completion order, choice of ready tasks, concurrency and crashes without a slipped outcome make no difference |
| RunTheorems.FreshEnd | crates/hub-scheduler/src/lib.rs:52-71 | from all Pending: Completed iff the run succeeds and all dependencies completed, Failed iff it fails and they completed, Blocked iff a direct dependency failed |
| RunTheorems.PendingEnd | crates/hub-scheduler/src/lib.rs:52-71 | a task is left Pending exactly when it has a failed ancestor but no failed direct dependency |
| RunTheorems.JobsStayWithinLimit | crates/hub-scheduler/src/lib.rs:97-130 | at every point the live jobs are exactly the running tasks and at most `concurrency`, so the free-slot subtraction never underflows |
| RunTheorems.StartsAreAllowed | crates/hub-scheduler/src/lib.rs:97-115 | a task starts only after all its dependencies completed with saved outcomes, and never when it has one itself |
| RunTheorems.NoTaskStartsTwice | crates/hub-scheduler/src/lib.rs:97-130 | two starts of one task have a crash between them |
| RunTheorems.CrashKeepsEndOfRunIff | crates/hub-runtime/src/plan.rs:72-105 | what a crash leaves at any point of any run can be started again, has nothing running or under review and counts as completed exactly the tasks with saved outcomes; it leads to the same end exactly when no task that failed, or is about to, has a saved outcome |
| RunTheorems.SlippedOutcome | crates/hub-runtime/src/workers.rs:316-346 | a run of one task that saves its outcome and then fails: it ends Failed, recovery makes it Completed |
| Execution.Workers.Run | crates/hub-runtime/src/workers.rs:309-346 | a run succeeds exactly for the tasks fated to, and then its outcome is saved before success is reported; of the others some fail only after saving |
| Execution.Launch | crates/hub-scheduler/src/lib.rs:101-113 | starting a ready task is the start step of the transition system |
| Execution.Join | crates/hub-scheduler/src/lib.rs:114-127 | a finished job is booked by the join and settle steps; no transition is rejected |
| Execution.SaveAll | crates/hub-scheduler/src/lib.rs:131-133 | at the end every row holds its task's status and attempts, nothing else of it having changed |
| Execution.Execute | crates/hub-scheduler/src/lib.rs:93-135 | terminates; refuses exactly a concurrency outside 1 to 8; otherwise the graph is kept, the statuses are the end the initial ones lead to, every row holds its task's status and attempts and is otherwise as before, and the whole execution is a crash-free run of the transition system |
| Compilation.CompiledAcyclicIff | crates/hub-runtime/src/plan.rs:46-59 | the compiled tasks' graph has a cycle exactly when the plan's own graph over keys has |
| Compilation.CompiledWellFormedIff | crates/hub-runtime/src/plan.rs:46-59 | the compiled tasks pass the dependency checks exactly when every step depends on distinct other steps |
| Compilation.AssignIds | crates/hub-runtime/src/plan.rs:29-45 | every complete step with a new key gets its id; fails exactly on an incomplete step or a repeated key |
| Compilation.MakeTasks | crates/hub-runtime/src/plan.rs:46-59 | tasks are the steps with keys replaced by ids and briefs are filed under those ids; fails exactly on an unknown key |
| Compilation.Compile | crates/hub-runtime/src/plan.rs:24-60 | a plan compiles exactly when it is in order as written, whatever ids are drawn; field by field its tasks are its steps, each of the plan and project asked for, waiting for the tasks of the steps it names; none has begun, and they may be executed |
| Plans.OfPlanIff | crates/hub-runtime/src/plan.rs:84-84 | the rows kept are those of the plan, in the order they are saved in and as often |
| Plans.Recover | crates/hub-runtime/src/plan.rs:72-105 | rebuilds exactly the recoverable plans; each saved task of the plan is there and no other, completed if its outcome is saved, pending again if it was in flight, and otherwise unchanged |
| Plans.CompiledPlanRecovers | crates/hub-runtime/src/plan.rs:24-105 | a compiled plan saved among tasks of other plans recovers to the same dag |
| Plans.CrashedPlanRecovers | crates/hub-runtime/src/plan.rs:72-105 | from the rows and outcomes at any point of any run, recovery succeeds with the same ids and dependencies, in startable statuses; they lead to the same end as the uninterrupted run exactly when no outcome slipped |
| TaskGraph.GraphLayers | apps/desktop/src/task-graph.ts:9-19 | lays out exactly the graphs with distinct keys, known dependencies and no cycle, each node in the layer of its longest chain, and says which condition failed |
| TaskGraph.LayoutIsPartition | apps/desktop/src/task-graph.ts:12-17 | every node is in the layers exactly as often as it was given |
| TaskGraph.AcceptedIffLaidOut | crates/hub-scheduler/src/lib.rs:14-51 | `Dag::new` accepts a list exactly when `graphLayers` lays it out and it is non-empty, of one project and repeats no dependency |
| Closures.ClosureIsLeast | crates/hub-context/src/handoff.rs:366-377 | the closure contains the set, obeys every link, and is inside every set that does both |
| Closures.ClosedIffFollowsLinks | crates/hub-context/src/handoff.rs:366-377 | closed means: with a group go what it depends on and what it corrects, with a corrected group all that correct it |
| Closures.ClosureMonotone | crates/hub-context/src/handoff.rs:366-377 | more selected groups close to more |
| Closures.ClosureIdempotent | crates/hub-context/src/handoff.rs:366-377 | closing twice is closing once |
| Closures.ClosureDistributes | crates/hub-context/src/handoff.rs:366-377 | the closure of a union is the union of the closures |
| Closures.ClosureIgnoresOrder | crates/hub-context/src/handoff.rs:366-377 | the order of the groups does not matter |
| Closures.MakeClosure | crates/hub-context/src/handoff.rs:366-377 | the sweep loop terminates with the least closed superset |
| Handoffs.CheckIffAccepted | crates/hub-context/src/handoff.rs:251-365 | the checks, in the order they are made, find no fault exactly with the accepted handoffs |
| Handoffs.AcceptedIff | crates/hub-context/src/handoff.rs:251-365 | accepted are exactly the handoffs within limits, with distinct ids, complete and cited sources and all six sections, whose groups name only what exists, speak for the user only in the user's words, follow what they correct, and count as verified only by calls that completed with 0 |
| Rendering.UnescapingUndoes | crates/hub-context/src/handoff.rs:406-406 | escaping for JSON loses nothing |
| Rendering.SelectionSize | crates/hub-context/src/handoff.rs:71-80 | a selection's measured size is the byte length of its JSON text |
| Rendering.HandoffSize | crates/hub-context/src/handoff.rs:64-71 | so is a handoff's |
| Selections.PackedBytesGrow | crates/hub-context/src/handoff.rs:378-406 | the serialized size grows with the selected set, strictly when a group is added |
| Selections.PackedBytesIsWritten | crates/hub-context/src/handoff.rs:378-415 | what the budget is compared with is the length of the pack written out |
| Selections.MandatoryIff | crates/hub-context/src/handoff.rs:399-404 | a group is mandatory exactly if it is no background or corrects another |
| Selections.PackFacts | crates/hub-context/src/handoff.rs:378-402 | kept and omitted groups partition the input in its order; kept sources are exactly those a kept group cites and kept outcomes exactly those a kept source names, each in order |
| Selections.OfferedSurvivesGrowth | crates/hub-context/src/handoff.rs:407-417 | what was too big to join stays too big when the selection has grown |
| Selections.Grow | crates/hub-context/src/handoff.rs:407-418 | the greedy loop ends with a closed fitting set that contains everything mandatory, to which no omitted group could be added with its closure, and which prefers later groups |
| Selections.LatestIsUnique | crates/hub-context/src/handoff.rs:409-417 | among all closed fitting sets with the mandatory groups exactly one has, wherever another first parts from it seen from the end, the group in question |
| Selections.Select | crates/hub-context/src/handoff.rs:251-418 | succeeds exactly when the checks pass and the mandatory closure fits; the result is the pack of that one set, which is maximal; written out it takes at most `max_bytes` bytes, and so do the kept texts together |
| Selections.OmittedAreDispensable | crates/hub-context/src/handoff.rs:378-418 | only background groups that correct nothing are omitted, and nothing kept links to one or is corrected by one |
| Selections.CorrectionsAreAcyclic | crates/hub-context/src/handoff.rs:312-325 | in an accepted handoff no chain of corrections returns to its start |
| Drafts.ConversationSize | crates/hub-context/src/handoff.rs:86-88 | a conversation is measured by the JSON text of its messages |
| Drafts.ValidateConversation | crates/hub-context/src/handoff.rs:82-115 | passes exactly the conversations that are in order |
| Drafts.ValidateCandidates | crates/hub-context/src/handoff.rs:150-197 | passes exactly the candidate lists that are in order, corrections pointing to earlier messages included |
| Drafts.SortedIsInOrder | crates/hub-context/src/handoff.rs:198-199 | the sort orders candidates by the position of their message |
| Drafts.SortIsStable | crates/hub-context/src/handoff.rs:198-199 | candidates that quote the same message keep their order |
| Drafts.TextBeforeIff | crates/hub-context/src/handoff.rs:200-200 | call ids are ordered like words in a dictionary |
| Drafts.CallOrderIsUnique | crates/hub-context/src/handoff.rs:200-246 | a map of outcomes has one listing in the order of call ids |
| Drafts.Build | crates/hub-context/src/handoff.rs:200-246 | one source and group per candidate and exactly the outcomes cited; fails exactly on an unknown section or messages that disagree about a call |
| Drafts.DraftPasses | crates/hub-context/src/handoff.rs:144-249 | what the draft checks and the sort guarantee implies the handoff's checks on duplicates, sources, grouping, correction order and verified outcomes |
| Drafts.DraftIsUnique | crates/hub-context/src/handoff.rs:200-246 | a draft stands for one handoff only |
| Drafts.DraftCarries | crates/hub-context/src/handoff.rs:203-246 | field by field, every candidate has a group with its id, links and named section resting on a source with its quote in the quoted message's name, verified exactly for a tool message completed with 0; the outcomes are those the messages report; and there is nothing else |
| Drafts.LinkIsCandidate | crates/hub-context/src/handoff.rs:232-240 | every link of a candidate in an accepted draft leads to another candidate |
| Drafts.FromConversationDraft | crates/hub-context/src/handoff.rs:144-249 | succeeds exactly when conversation and candidates are in order and the handoff they stand for can be selected from, and then carries all they say; a refusal by `select` is never about ids, sources, order or outcomes |
| Ledger.TotalsStayInBudget | crates/hub-db/src/lib.rs:966-995 | over any interleaving of checks, commits and denials by any number of clients, what a task holds never exceeds its total, so the 32-bit sums neither overflow nor saturate |
| Ledger.StepKeepsInBudget | crates/hub-db/src/lib.rs:966-995 | each action keeps every row within its own and the single-retrieval budget, denials free, totals bounded |
| Ledger.RefusedIffOthersCommitted | crates/hub-context/src/lib.rs:158-176 | over any interleaving, a retrieval that passed its check is refused at the commit exactly when what was committed for the task in between and its own estimate exceed what was left at the check, and then some commit did come in between |
| Ledger.CheckAloneIsNotEnough | crates/hub-context/src/lib.rs:158-176 | two clients can pass the check with only one able to commit |
| Ledger.Truncate | crates/hub-context/src/lib.rs:244-292 | keeps the longest prefix, cutting 33 characters at a time, whose payload fits; fails exactly when not even the empty text does |
| Ledger.Store.SaveCapsule | crates/hub-db/src/lib.rs:920-935 | a task gets one capsule, once |
| Ledger.Store.CommitRetrieval | crates/hub-db/src/lib.rs:970-995 | one transaction: the row is added exactly when it is within its own, the single and the total budget |
| Ledger.Store.RecordDenial | crates/hub-db/src/lib.rs:966-969 | a denial is booked and costs nothing |
| Ledger.Store.Inspect | crates/hub-context/src/lib.rs:120-136 | reports initial and retrieved tokens; for a capsule built within its budget the saturating total is exact |
| Ledger.Store.BuildInitial | crates/hub-context/src/lib.rs:96-119 | a capsule is saved exactly when its budget is valid, its text fits the initial tokens and the task has none |
| Ledger.Store.CheckRequest | crates/hub-context/src/lib.rs:158-176 | the early check with its saturating subtraction accepts exactly requests within the single budget and what is left |
| Ledger.Store.Retrieve | crates/hub-context/src/lib.rs:137-292 | undisturbed, a retrieval returns the first cut that fits, whose bytes are within three times the tokens asked for, and is booked at its estimate within its budget, or fails and is booked as a free denial |
| TextEdits.EditSucceedsIff | crates/localoud-mcp/src/lib.rs:730-772 | an edit succeeds exactly when the hash is well formed and matches, the texts are in order, the old text occurs at one position counting overlaps and the result is small enough, and returns the splice there |
| TextEdits.SwappedEditRestores | crates/localoud-mcp/src/lib.rs:730-772 | the swapped edit restores the original exactly when the new text is non-empty and unique in the result and the original within the size limit |
| TextEdits.CountedOnceIff | crates/hub-runtime/src/api_worker.rs:572-577 | a count of one without overlaps means every occurrence overlaps the first |
| TextEdits.OnceIsCountedOnce | crates/hub-runtime/src/local_worker.rs:113-116 | one occurrence counting overlaps is one counted without |
| TextEdits.CountedOnceMayOccurTwice | crates/hub-runtime/src/api_worker.rs:572-577 | the converse fails for "aa" in "aaa" |
| LocalEdits.Directory.AtomicWrite | crates/hub-runtime/src/local_worker.rs:140-158 | reports success exactly when the schedule lets it and the target exists; the visible files change exactly when the write took effect |
| LocalEdits.RollBack | crates/hub-runtime/src/local_worker.rs:179-187 | reports a failure exactly when one of its reads or writes fails; every edit is back to its old text exactly unless its own undo failed to restore it, whatever became of the others |
| LocalEdits.Recover | crates/hub-runtime/src/local_worker.rs:173-188 | reports a failure exactly when undoing goes wrong; otherwise everything is as before, but for a write that took effect and whose deciding read failed |
| LocalEdits.Apply | crates/hub-runtime/src/local_worker.rs:159-193 | all or nothing, for every schedule of faults: the report is exactly the one the schedule and the preimages demand; success changes every edited path to its new text and nothing else; a refused preimage changes nothing; after a failure the schedule says of every edit whether its new text is left; with `rollback_failed` unset everything is as before exactly when no write escaped notice, in particular when all reads work |
| LocalEdits.SilentlyApplied | crates/hub-runtime/src/local_worker.rs:173-178 | one edit whose write fails after taking effect and whose deciding read fails is reported as undone |
| LocalEdits.PrepareOne | crates/hub-runtime/src/local_worker.rs:100-125 | an edit is accepted exactly when its file can be read, its path is approved, the file unchanged, the old text counted once, and the first-occurrence replacement a change, small and free of secrets |
| LocalEdits.Prepare | crates/hub-runtime/src/local_worker.rs:93-139 | a proposal is accepted exactly when its files can be read and it has one or two edits of distinct files, each in order, and fewer than 100 changed lines; the result meets what `apply` relies on |
| AgentLoop.CallsAppend | crates/hub-runtime/src/api_worker.rs:163-177 | the calls of a message are those of its parts, in order |
| AgentLoop.OneCall | crates/hub-runtime/src/api_worker.rs:163-177 | a block is a call exactly if it is a tool use |
| AgentLoop.FinalTextAppend | crates/hub-runtime/src/api_worker.rs:178-186 | the text of a message is that of its parts, joined |
| AgentLoop.RefusalLinesAppend | crates/hub-runtime/src/api_worker.rs:191-201 | the refusal lines of a message are those of its parts |
| AgentLoop.RefusalStopRefuses | crates/hub-runtime/src/api_worker.rs:143-163 | a refusing stop reason always leaves a refusal block |
| AgentLoop.OneRound | crates/hub-runtime/src/api_worker.rs:99-268 | a round ends the run as provider error, refusal, completion or empty completion, or extends the transcript by the response and one answer per call in order |
| AgentLoop.RunIsDetermined | crates/hub-runtime/src/api_worker.rs:99-284 | given the model's and the tools' answers a run can unfold in one way only |
| AgentLoop.UnfoldsProperly | crates/hub-runtime/src/api_worker.rs:99-284 | however a run unfolds, its requests are the input plus whole answered rounds and its result extends the input by a properly closed suffix of its own origin |
| AgentLoop.RunWithHistory | crates/hub-runtime/src/api_worker.rs:80-285 | makes at most 32 inferences, unfolds from what model and tools answer, and returns such a suffix |
| AgentLoop.OnlyARefusalLeavesCallsOpen | crates/hub-runtime/src/api_worker.rs:99-284 | an appended message with calls is directly followed by their answers one to one by id, unless it is the final refusal |
| Sessions.OneOpenSegment | crates/hub-db/src/lib.rs:455-472 | over any run of target changes, profile revisions and turns a thread never has two open segments |
| Sessions.SegmentChangesIff | crates/hub-runtime/src/api_sessions.rs:415-440 | a turn keeps the open segment exactly when its target and revision are those it was opened for |
| Sessions.StartKeepsValid | crates/hub-runtime/src/api_sessions.rs:376-473 | starting a turn keeps every stored state with the origin of its segment |
| Sessions.FinishKeepsValid | crates/hub-runtime/src/api_sessions.rs:528-556 | so does finishing one, whatever the agent returned |
| Sessions.RunStaysValid | crates/hub-runtime/src/api_sessions.rs:302-556 | over any run |
| Sessions.HistoryIsIsolated | crates/hub-runtime/src/api_sessions.rs:233-253 | a running turn's history carries opaque states of its own segment only |
| Sessions.RequestsAreIsolated | crates/hub-runtime/src/api_sessions.rs:233-253 | over any run, every opaque state in any request was produced under the request's own target and profile revision |
| Sessions.StoredEqualsReturned | crates/hub-runtime/src/api_sessions.rs:543-556 | after `finish` the stored roles and contents are exactly the returned transcript's |
| Sessions.ApiSessions.StartProviderSegment | crates/hub-db/src/lib.rs:455-466 | ends the thread's open segment and opens the new one |
| Sessions.ApiSessions.AppendMessages | crates/hub-runtime/src/api_sessions.rs:543-556 | appends exactly the given messages under the segment |
| Sessions.ApiSessions.ChangeTarget | crates/hub-runtime/src/api_sessions.rs:302-333 | succeeds exactly for an idle session that allows it and an enabled profile, and then the session's target is the one asked for; else nothing changes |
| Sessions.ApiSessions.StartTurn | crates/hub-runtime/src/api_sessions.rs:376-473 | succeeds exactly for an idle known session, a question and a known profile; stores the question last, under the segment of the present target and revision, and marks the turn running; else nothing changes |
| Sessions.ApiSessions.FinishTurn | crates/hub-runtime/src/api_sessions.rs:528-556 | stores exactly the new suffix and ends the turn |
| Sessions.ApiSessions.RunTurn | crates/hub-runtime/src/api_sessions.rs:473-556 | the agent's run of a turn, booked: result and requests unfold from the turn's history by what model and tools answer, the thread ends up holding the returned transcript, and no request mixes origins |
| Utf8.ValidUtf8Iff | crates/localoud-mcp/src/lib.rs:679-679 | bytes are accepted as text exactly when they encode some text |
| Diffs.HeaderPathUndoesQuote | crates/localoud-mcp/src/lib.rs:643-680 | a path quoted with the five named escapes and octal bytes is recovered, trailing tabs or not; a path that is not UTF-8 is refused |
| Diffs.HeaderPathUndoesGitIff | crates/localoud-mcp/src/lib.rs:643-680 | a path as Git writes it, quoted where needed, is recovered exactly when it is UTF-8 and has none of the bytes 7, 8, 11 and 12; every other path is refused |
| Diffs.BellIsRefused | crates/localoud-mcp/src/lib.rs:663-673 | a UTF-8 path with a bell in it is refused |
| Diffs.OtherEscapesAreRefused | crates/localoud-mcp/src/lib.rs:650-676 | any other escape is refused wherever it stands |
| Diffs.GitHeaderPath | crates/localoud-mcp/src/lib.rs:643-680 | the index loop computes the decoding |
| Diffs.SplitHolds | crates/localoud-mcp/src/lib.rs:682-700 | the diff is a lead without opening lines followed by blocks that each open with one |
| Diffs.SplitIsUnique | crates/localoud-mcp/src/lib.rs:682-700 | in one way only |
| Diffs.BlockStarts | crates/localoud-mcp/src/lib.rs:682-694 | the offsets the loop collects cut the text into exactly those blocks |
| Diffs.HeaderLinesAppend | crates/localoud-mcp/src/lib.rs:697-701 | the header lines of a block are those before the first line that ends the header, in order |
| Diffs.SplitAtHolds | crates/localoud-mcp/src/lib.rs:356-389 | a path's parts are what stands between its slashes |
| Diffs.PublishableIff | crates/localoud-mcp/src/lib.rs:356-389 | what is publishable, by its characters and parts |
| Diffs.SafePartIff | crates/localoud-mcp/src/lib.rs:356-389 | which parts a publishable path may have, in upper or lower case |
| Diffs.PublishableStaysInside | crates/localoud-mcp/src/lib.rs:356-389 | a publishable path is relative, and none of its parts is empty, hidden or leads upwards |
| Diffs.FilterDiff | crates/localoud-mcp/src/lib.rs:682-718 | shows, in order, exactly the blocks that have header paths which are all `/dev/null` or publishable, and says whether a block was held back; if none was, the diff is its lead and what is shown, which is all of it exactly when the diff is empty or begins with a block |
| Diffs.LeadIsDropped | crates/localoud-mcp/src/lib.rs:682-694 | a line of text without a block is dropped with nothing counted as held back |
| Diffs.FilteringTwice | crates/localoud-mcp/src/lib.rs:682-718 | what it shows consists of exactly the kept blocks; filtering again changes and withholds nothing |
| Cancellation.LiveIff | crates/localoud-mcp/src/rpc_session.rs:22-30 | a request is live exactly when it was admitted and its future not yet dropped |
| Cancellation.LiveOnesDiffer | crates/localoud-mcp/src/rpc_session.rs:68-80 | live requests have different ids and number at most 128 |
| Cancellation.SignalledIff | crates/localoud-mcp/src/rpc_session.rs:46-61 | a request is signalled exactly when it was admitted, its id is a string or number, and a cancellation of the id came before its future was dropped |
| Cancellation.OneCancelOneRequest | crates/localoud-mcp/src/rpc_session.rs:46-61 | one cancellation signals at most one request |
| Cancellation.DropStep | crates/localoud-mcp/src/rpc_session.rs:26-32 | a guard that removes by id removes its own request's entry and no other |
| Cancellation.RpcSession.HandleCommand | crates/localoud-mcp/src/rpc_session.rs:62-83 | refuses exactly when a live request has the id or 128 are live |
| Cancellation.RpcSession.HandleCancel | crates/localoud-mcp/src/rpc_session.rs:46-61 | the registry goes on matching the history, the live request with the id being signalled once and staying registered |
| Cancellation.RpcSession.Drop | crates/localoud-mcp/src/rpc_session.rs:26-32 | dropping a request's future frees that request and no other |
| Cancellation.RpcSession.Finish | crates/localoud-mcp/src/rpc_session.rs:88-95 | a ready command reports a cancellation exactly when it was signalled |
| RoutingSettings.EveryRouteHasTargetIff | crates/hub-router/src/automatic.rs:189-212 | every route has a target exactly when all five levels are present |
| RoutingSettings.RoutesFallBack | crates/hub-router/src/automatic.rs:189-212 | the reviewer falls back on the planner, the planner on level 5, the fallback on level 3 |
| RoutingSettings.LevelTargetIff | crates/hub-router/src/automatic.rs:190-196 | a level's target is that of the first assignment for it |
| RoutingSettings.CountRouteIs | crates/hub-router/src/automatic.rs:216-223 | a route is counted as often as it stands among the assignments |
| RoutingSettings.BuiltResolves | crates/hub-router/src/automatic.rs:249-269 | each route is assigned once, to an agent with its own name and target |
| RoutingSettings.NoTwins | crates/hub-router/src/automatic.rs:251-266 | no two agents have the same name and target: routes that agree on both share one |
| RoutingSettings.MigratedName | crates/hub-router/src/automatic.rs:238-247 | a route's migrated agent carries the first old name kept for that route, trimmed, or else the default one |
| RoutingSettings.MigrationKeepsTargets | crates/hub-router/src/automatic.rs:213-271 | with all levels present incomplete settings become complete, every route gets an agent with the target it had, and no target changes |
| RoutingSettings.MigrationIsIdempotent | crates/hub-router/src/automatic.rs:213-271 | migrating again changes nothing |
| RoutingSettings.MigratedAgentsAreValidIff | crates/hub-router/src/automatic.rs:290-339 | the migrated agents validate exactly when every old target does and the names taken over are short and free of control characters |
| RoutingSettings.SyncSucceedsIff | crates/hub-router/src/automatic.rs:272-289 | a sync succeeds exactly on valid agents with all levels present |
| RoutingSettings.SyncedTargets | crates/hub-router/src/automatic.rs:272-289 | after a sync every route runs on its agent's target, except a fallback never set, which follows level 3 |
| RoutingSettings.SyncIsIdempotent | crates/hub-router/src/automatic.rs:272-289 | syncing again changes nothing |
| RoutingSettings.FailedSyncIs | crates/hub-router/src/automatic.rs:272-284 | a sync that fails on valid agents has updated the classifier and the levels before the first missing one, and nothing else |
| RoutingSettings.MigrationThenSyncKeepsTargets | crates/hub-router/src/automatic.rs:189-289 | migrating and then syncing leaves all nine effective targets unchanged |
| RoutingSettings.AutoSettings.EnsureAgentProfiles | crates/hub-router/src/automatic.rs:213-271 | the loops compute the migration and report whether anything was migrated |
| RoutingSettings.AutoSettings.ValidateAgents | crates/hub-router/src/automatic.rs:290-339 | the loops accept exactly the valid agents |
| RoutingSettings.AutoSettings.ValidateTarget | crates/hub-router/src/automatic.rs:24-56 | the branches accept exactly the valid targets |
| RoutingSettings.AutoSettings.SyncTargetsFromAgents | crates/hub-router/src/automatic.rs:272-289 | the assignments compute the sync, partial updates of a failing one included |

## Left out

- Git, processes, sandboxes, HTTP, SQLite and the Keychain: foreign effects; tables are sequences and maps, transactions atomic steps.
- Model, provider and tool calls: arbitrary oracles; usage counters, changed paths and tool activity of a run are not kept.
- Redaction, hashing, line diffs and the secret test: parameters; `FilterDiff` is the filter before redaction.
- Rendering.SelectionSize: the wording of the fixed `authority` sentences is a parameter of 272 bytes; `serde_json`'s number formats beyond integers do not occur.
- Wall-clock times, UUID drawing: ids are parameters assumed fresh and distinct.
- Execution.Execute: `changed` callbacks succeed; a failing one aborts the loop early and makes no claim about the end. It requires what `compile` and `recover` establish (nothing Running or Reviewing, ready tasks' dependencies Completed). Attempts are unbounded numbers.
- RunTheorems.OneEnd: a crash that strikes after an outcome slipped ends the run; what is recovered starts a new one, with its own end.
- Compilation.Compile: whether a brief is usable (criteria, budget, preparable handoff) is one flag of a step; `Task` fields other than id, project, plan, dependencies, status and attempts are absent.
- Plans.Recover: the file format of the persisted plan is not part of this model.
- LocalEdits.Prepare: opening the worktree directory is assumed to succeed, and the unified diff text is not built.
- LocalEdits.Apply: paths are canonical and distinct; aliases, symlinks, permissions and outside writers are excluded. What a failed write leaves behind as a temporary file is tracked apart from the visible files.
- Sessions.RunStaysValid: turns are serialized per thread and uninterrupted; `interrupt` racing with `finish`, ignored database errors and the migration of old transcripts are not modelled.
- Diffs.GitHeaderPath: text is a sequence of bytes; `safe_path`'s final check of path components adds nothing to the checks on its parts and is not repeated.
- Cancellation.SignalledIff: an id is a value; that `to_string` of JSON values is injective is not proved.
- RoutingSettings.AutoSettings.SyncTargetsFromAgents: which of the failing validations is reported is not distinguished.
- Ledger.Store.Retrieve: gathering the text (file reads, Git log, task lookups) is a parameter that may fail.
- The desktop interface, fixtures, benchmarks, routing keyword lists and command allowlists: settled by reading one branch.
