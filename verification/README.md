# A verified model of the control plane's consistency core

The control plane moves graph nodes through dispatch, evaluation and delivery while heartbeats, orchestrators,
adapters and operators act concurrently and may crash or repeat themselves. This project models the parts whose
correctness depends on the code itself and proves what they promise.

Each `BEGIN IMMEDIATE … COMMIT` transaction, compare-and-set `UPDATE`, `unlink` and append is one atomic step. Code
that changes state in place is a class whose methods are proved equal to a specification function, or a method with
its loops; whole-run results are proved about those functions over arbitrary sequences of steps. What a step does and when
it succeeds is stated again in the values of the tables, files and streams themselves (the lemmas named `…Tell`,
`…Tells` and `…Writes`), so that a specification function and the method proved equal to it cannot drift together.

| file | what it models |
|---|---|
| `KahnLoop.dfy`, `MissionProjection.dfy` | ordering of a mission by Kahn's algorithm, and the dispatcher's independent check of that order |
| `JobQueue.dfy`, `Reservations.dfy`, `Retries.dfy` | the event, job and session tables; safety of interleaved heartbeats; the accounts of work and plumbing retries |
| `OrchestratorInbox.dfy` | the per-project inbox shared by dispatchers and orchestrators, with the lock as explicit phases, and the directory that carries it |
| `CompletionDiscipline.dfy` | first write wins, idempotent replays and quarantined conflicts of completion ids |
| `NodeJournal.dfy` | the GDAD node journal: legality, run ids, decisions and verdict lookup |
| `PacketCap.dfy` | the byte cap on packet text, with UTF-8 as in section 3 of RFC 3629 |
| `DispatchGroups.dfy` | bundling of planned dispatches into engagements, and collection of their outcomes |
| `CursorTurn.dfy` | cursor stream translation, the turn that holds back its boundary events, the attempt supervisor |
| `Frontier.dfy` | automatic frontier advance and bounded re-dispatch of ready nodes |
| `GraphDelivery.dfy` | the delivery commit of a finished graph, its review branch, and cleanup of transport refs, while others change the remote |
| `LineBuffer.dfy` | reassembly of lines from a pipe |
| `PromptTopology.dfy` | prompt zones, their offsets and the shared prefix of two turns |
| `Text.dfy`, `Wrappers.dfy` | numerals, string helpers, optional values and results |

Findings where the code does less than one might expect, each with its exact condition:

- The translator takes a text fragment equal to everything buffered for the final re-emission. For every buffer,
  `MessageIsNotDoubled` says when a message that is streamed and then repeated whole is emitted once after what was
  said before. With nothing buffered: exactly when no delta repeats all text before it. With text buffered: exactly
  when every delta repeats that text and the message as a whole does not, so a second message that no tool call
  separates from the first is normally doubled. `RepeatedDeltaIsLost` ("ha", "ha", "haha" is emitted as "hahaha") and
  `SecondMessageIsDoubled` ("a", "a", "b", "b" is emitted as "abb") are streams where it fails.
- The reading budget is recomputed at every tool start and a success clears the turn's error, so an overrun that was
  noticed can go unreported. `OverrunIsForgotten` says exactly when: it is gone from the error when the last call is
  not the one over budget or the stream had a success, and from error and warnings alike when the last call is not the
  one over budget or the process ended well after a success. `ShellCallForgetsOverrun` (seven grep calls, one shell
  call) and `SuccessHidesOverrun` (seven grep calls, a success, return code 0) are streams. In the durable record a
  failed result's own text comes before the reason (`ExitTellsOverrun`).
- `submit_completion` protects identities only while a session submits for the id it is bound to; `SafeToSubmit` is an
  if-and-only-if. A replay of a stored submission returns the row's result, which equals the first answer exactly
  under the condition of `ReplayReturnsFirstResult`; `ReplayAnswersDifferently` gives a call where it does not. Only
  replays of stored submissions stay silent for ever (`LateReplayIsSilent`): a late replay of a quarantined one puts
  its own reason back on the holder if another session conflicted in between (`LateReplayRewritesReason`).
- A cleanup protects the results its search saw. When others move refs meanwhile, no result is lost exactly when the
  review branch contains every commit that they moved in under a collected name (`CleanupUnderInterference`);
  `MovedResultIsLost` gives a case where it does not.
- A node dispatched at the start of a heartbeat is dispatched again at its end only if it was put back to `pending` in
  between (`OneEventPerHeartbeat`).
- The estimate `potential_reuse_tokens`, summed zone by zone, is within one token of the estimate of the whole stable
  prefix for every prompt (`ReuseWithinOne`), also when some zones are empty.

## Assumptions

- Process ids of orchestrators are not reused, and orchestrators leave only by the idle exit or by an empty first
  claim.
- Timestamps of human readiness records are not in the future of the clock that reads them, and that clock does not
  run backwards.
- During a cleanup a review branch is neither deleted nor moved back. Other refs may change at any time.
- Marker names in the inbox are never reused.
- One fixed concurrency cap per repository.

## Model

| member | source | states |
|---|---|---|
| MissionProjection.TopologicalNodes | scripts/adapters/mission_projection.py:167-198 | fails with duplicates exactly when ids repeat and with a cycle exactly when the selected dependencies have one; otherwise a permutation with dependencies first, in the order a FIFO queue gives |
| MissionProjection.CountDependencies | scripts/adapters/mission_projection.py:174-182 | each in-degree is the number of distinct selected dependencies and each reverse list holds exactly the dependents, in input order |
| MissionProjection.InitialQueue | scripts/adapters/mission_projection.py:184-186 | the queue starts with exactly the ids that wait for nothing, in input order |
| MissionProjection.Release | scripts/adapters/mission_projection.py:191-194 | crossing one id off its dependents keeps the counts right and enqueues exactly those left with nothing to wait for |
| MissionProjection.StuckIsCyclic | scripts/adapters/mission_projection.py:196-197 | if every remaining node waits for a remaining node, the selection has a cycle: the length test raises only on real cycles |
| MissionProjection.OrderedIsAcyclic | scripts/adapters/mission_projection.py:196-198 | an order with dependencies first exists only for an acyclic selection |
| MissionProjection.SizeTellsDuplicates | scripts/adapters/mission_projection.py:169-172 | comparing the sizes of dictionary and list detects exactly the repeated ids |
| MissionProjection.OrderIsUnique | scripts/adapters/mission_projection.py:167-198 | the promised order is one definite permutation |
| MissionProjection.NoDependenciesKeepsInput | scripts/adapters/mission_projection.py:167-198 | without selected dependencies the order is the input order |
| MissionProjection.ValidateEngagementOrder | scripts/runtime/heartbeat/dispatcher.py:208-236 | accepts exactly sequences with non-empty, distinct ids whose selected dependencies occur strictly earlier, and otherwise reports the first violation |
| MissionProjection.LateInListedOrder | scripts/runtime/heartbeat/dispatcher.py:224-229 | the reported late dependencies are picked one by one, in listed order |
| MissionProjection.CheckerAcceptsProjection | scripts/runtime/heartbeat/dispatcher.py:208-236 | every order the projection can return for the same non-empty ids passes the check |
| MissionProjection.AcceptedOrderRulesOutCycle | scripts/runtime/heartbeat/dispatcher.py:208-236 | if the check accepts some permutation, the projection does not raise |
| JobQueue.ScopeSafe | scripts/runtime/heartbeat/scope_checker.py:40-82 | scope is safe exactly when no job of the node is ready, running or awaiting its result or review, and every dependency is complete or provisional |
| JobQueue.ScopeTells | scripts/runtime/heartbeat/scope_checker.py:40-82 | an unsafe scope names the first job in flight, or else the first dependency that is not satisfied and its status, "unknown" if it has none |
| JobQueue.ActiveJobsAreCounted | scripts/runtime/heartbeat/runner.py:141-153 | the active count of a repo is the number of its rows that are ready or running in either status column |
| JobQueue.ReserveTells | scripts/runtime/heartbeat/runner.py:511-577 | a reservation succeeds exactly when fewer rows of the repo than the cap are ready or running in either column and the scope is safe; a full repo is reported with that number |
| JobQueue.ReserveWrites | scripts/runtime/heartbeat/runner.py:511-577 | a reservation appends one ready job and its dispatching attempt-0 session; any other answer inserts nothing, gives a claimed event back only for lack of room, and leaves other events alone |
| JobQueue.SecondClaim | scripts/runtime/heartbeat/runner.py:418-434 | a claimed event can be claimed again exactly by a heartbeat that considers the claim stale |
| JobQueue.ClaimTells | scripts/runtime/heartbeat/runner.py:418-434 | a claim wins exactly on a waiting event or one with a stale claim; it marks that event alone, and a loser changes nothing |
| JobQueue.ClaimHoldsHalfAnHour | scripts/runtime/heartbeat/runner.py:418-434 | a claim shuts out exactly the heartbeats that started at most 30 minutes after it |
| JobQueue.RecordTells | scripts/runtime/heartbeat/runner.py:679-761 | an outcome wins exactly on a session still dispatching, moves session and job together to the state of that outcome, writes the handle and base it brings and keeps what it does not bring; the event is mapped either way |
| JobQueue.RecoverAllTells | scripts/runtime/heartbeat/state_recorder.py:463-509 | a recovery pass fails every selected abandoned session with its job and changes nothing else in any session or job |
| JobQueue.OnlyNamedJobsFail | scripts/runtime/heartbeat/state_recorder.py:490-508 | a recovery pass touches no job that none of its rows names |
| JobQueue.RetryBaseTells | scripts/runtime/heartbeat/state_recorder.py:272-306 | without an override a retry builds on the base of the job row; a row without one falls back to the session with the least attempt, the first inserted, that has a base |
| JobQueue.RetryTells | scripts/runtime/heartbeat/state_recorder.py:309-367 | a granted work retry raises only the attempt counter, by one, and opens one dispatching session of that attempt |
| JobQueue.PlumbingTells | scripts/runtime/heartbeat/state_recorder.py:370-418 | a granted plumbing retry raises only the plumbing counter, by one, and opens one dispatching session that keeps the attempt |
| JobQueue.DrainTells | scripts/runtime/heartbeat/state_recorder.py:167-202 | the drain settles exactly the reviewed jobs whose node is complete or deferred in the graph |
| JobQueue.MovedTells | scripts/runtime/heartbeat/state_recorder.py:185-202 | the report holds exactly the changed rows with their nodes and new states |
| JobQueue.MovedInOrder | scripts/runtime/heartbeat/state_recorder.py:185-202 | the report follows the row order |
| JobQueue.QueueDb.ClaimEvent | scripts/runtime/heartbeat/runner.py:418-434 | the claiming update, in place |
| JobQueue.QueueDb.CountActive | scripts/runtime/heartbeat/runner.py:141-153 | the loop counts the rows of the repo that are ready or running in either status column, stated as the size of that set |
| JobQueue.QueueDb.ReserveJob | scripts/runtime/heartbeat/runner.py:511-577 | the reservation transaction, in place |
| JobQueue.QueueDb.RecordOutcome | scripts/runtime/heartbeat/state_recorder.py:421-460 | finalize-if-still-dispatching and the job update that depends on it, in place |
| JobQueue.QueueDb.RecoverStale | scripts/runtime/heartbeat/state_recorder.py:463-509 | selects exactly the sessions that still dispatch since the cutoff, are of their job's current attempt and belong to a job that is not cancelled, of the repo if one is given, and recovers those |
| JobQueue.QueueDb.DrainReviews | scripts/runtime/heartbeat/state_recorder.py:167-202 | the drain as a loop over rows; it reports exactly the jobs it changed, in row order, with node and new state |
| JobQueue.QueueDb.RetryWork | scripts/runtime/heartbeat/state_recorder.py:309-367 | the work-retry compare-and-set, in place |
| JobQueue.QueueDb.RetryPlumbing | scripts/runtime/heartbeat/state_recorder.py:370-418 | the plumbing-retry compare-and-set, in place |
| Reservations.ReservationsAreSafe | scripts/runtime/heartbeat/runner.py:511-577 | over every interleaving at most one job per node is ready, running or awaiting its result or review, and no repo has more rows ready or running in either column than its cap |
| Reservations.InvStep | scripts/runtime/heartbeat/runner.py:511-577 | every single step of any heartbeat keeps the reservation invariant |
| Reservations.SessionsStay | scripts/runtime/heartbeat/state_recorder.py:421-460 | sessions are only appended, and one that left dispatching is never rewritten |
| Reservations.OneWinner | scripts/runtime/heartbeat/state_recorder.py:421-509 | of all outcomes and recoveries of a reserved session exactly one wins, or none while it is still dispatching |
| Reservations.WinnerDecides | scripts/runtime/heartbeat/runner.py:679-761 | after the winning transition the job is running exactly when the session is dispatched or mediated and failed exactly when dispatch failed |
| Reservations.LateOutcomeIgnored | scripts/runtime/heartbeat/runner.py:713-755 | a late outcome or second recovery changes neither jobs nor sessions |
| Reservations.FailedStaysFailed | scripts/runtime/heartbeat/runner.py:679-761 | a job whose dispatch failed or was recovered is failed for ever |
| Retries.RetriesAreAccounted | scripts/runtime/heartbeat/state_recorder.py:309-418 | over every interleaving a job has 1 + attempt + plumbing sessions, both counters within budget, and all reserved handles of all jobs are pairwise distinct |
| Retries.BooksStep | scripts/runtime/heartbeat/state_recorder.py:309-418 | every step, with any stale job copy, keeps those accounts |
| Retries.BaseIsFixed | scripts/runtime/heartbeat/state_recorder.py:272-306 | no step changes the base recorded on a job row |
| Retries.RetryKeepsBase | scripts/runtime/heartbeat/state_recorder.py:272-418 | without an override every granted retry session carries the job row's recorded base whenever the row has one |
| Retries.RetryGranted | scripts/runtime/heartbeat/state_recorder.py:309-418 | a retry is granted exactly when the caller's counter is within budget and still the row's; a refusal changes nothing |
| Retries.PlumbingInjective | scripts/runtime/heartbeat/state_recorder.py:370-418 | a plumbing handle determines its job, attempt and counter |
| Retries.PlumbingIsNoAttempt | scripts/runtime/heartbeat/state_recorder.py:205-206 | no plumbing handle of any job is an attempt handle of any job |
| Retries.AttemptIdInjective | scripts/runtime/heartbeat/state_recorder.py:205-206 | an attempt handle determines its job and attempt, whatever colons job ids contain |
| Retries.HandlesArePairwiseDistinct | scripts/runtime/heartbeat/state_recorder.py:213-260 | in any books-keeping state no two sessions of any jobs share a reserved handle |
| OrchestratorInbox.NeverStranded | scripts/adapters/pi_rpc_adapter.py:269-307 | whenever a packet is queued, an orchestrator that will still claim is alive or about to be spawned, also when a process that is gone but not reaped still answers the probe |
| OrchestratorInbox.ClaimedAtMostOnce | scripts/adapters/pi_rpc_adapter.py:1337-1362 | with any number of consumers, queued packets are those still in the inbox plus those claimed, each claimed once |
| OrchestratorInbox.LeavesOnlyWhenEmpty | scripts/adapters/pi_rpc_adapter.py:1018-1036 | an orchestrator leaves its loop only from an empty inbox |
| OrchestratorInbox.DispatchesInTurn | scripts/adapters/pi_rpc_adapter.py:269-307 | over every run each dispatch reads the pid file, probes, and either only queues its packet or, without an answer, queues it, spawns a process and publishes its pid |
| OrchestratorInbox.ProcessesTell | scripts/adapters/pi_rpc_adapter.py:1018-1055 | what can follow each phase of an orchestrator; the one that leaves its loop, and the one that is gone after that, has removed the pid file |
| OrchestratorInbox.QueuedPacketsCanBeClaimed | scripts/adapters/pi_rpc_adapter.py:1018-1055 | from every reachable state the processes already there can empty the inbox without a new dispatch |
| OrchestratorInbox.InvStep | scripts/adapters/pi_rpc_adapter.py:1018-1055 | every step, including the unlocked pid-file removal at shutdown, keeps the inbox invariant |
| OrchestratorInbox.Inbox.Enqueue | scripts/adapters/pi_rpc_adapter.py:1325-1334 | a packet queued under the newest name is handed out after everything queued before it |
| OrchestratorInbox.Inbox.ClaimReadySet | scripts/adapters/pi_rpc_adapter.py:1337-1362 | among any competitors, hands out exactly the listed non-empty packets nobody else unlinked first, oldest first, and leaves what the others did; alone, it hands out the whole queue |
| OrchestratorInbox.TakenTells | scripts/adapters/pi_rpc_adapter.py:1349-1361 | a listed marker is handed out exactly when nobody else unlinked it up to its turn |
| OrchestratorInbox.PathsTell | scripts/adapters/pi_rpc_adapter.py:1349-1361 | what is handed out are the contents of the markers that are not blank, in the order of the listing |
| OrchestratorInbox.NewestIsLast | scripts/adapters/pi_rpc_adapter.py:1325-1334 | first in, first out: the queue with a newest marker is the old queue followed by that packet |
| OrchestratorInbox.EnqueueRefines | scripts/adapters/pi_rpc_adapter.py:269-281 | queueing a marker file is the enqueue step of the state machine, and its name is new |
| OrchestratorInbox.ClaimRefines | scripts/adapters/pi_rpc_adapter.py:1349-1361 | whatever the other processes do between the unlinks, the batch the state machine collects is what the directory claim takes, and the directory shows the machine's inbox |
| CompletionDiscipline.CompletionStore.SubmitCompletion | scripts/runtime/heartbeat/completion_discipline.py:25-211 | the submission transaction, in place, with every error answer |
| CompletionDiscipline.CallKeepsTables | scripts/runtime/heartbeat/completion_discipline.py:52-211 | bound ids stay unique and digests normalized; the stored-digest error cannot occur |
| CompletionDiscipline.CallKeepsHolders | scripts/runtime/heartbeat/completion_discipline.py:52-211 | a disciplined call changes no holder's id, digest, result or manifest and clears no quarantine |
| CompletionDiscipline.AnswerTells | scripts/runtime/heartbeat/completion_discipline.py:52-211 | stored exactly when no row is bound to the id, duplicate exactly when the row bound to it has the submitted digest, quarantined exactly otherwise, with the holder's result and manifest |
| CompletionDiscipline.RejectionTells | scripts/runtime/heartbeat/completion_discipline.py:43-73 | each way not to reach the comparison has its own answer, exactly in its case |
| CompletionDiscipline.StoredWrites | scripts/runtime/heartbeat/completion_discipline.py:78-105 | a stored submission binds the caller's row to id and digest, takes the result and manifest it brings, keeps those it does not bring, and writes nothing else |
| CompletionDiscipline.DuplicateWrites | scripts/runtime/heartbeat/completion_discipline.py:107-128 | a duplicate from another session gets the state, the holder's digest, result and manifest, keeps job, id, quarantine and error, and no other row or job changes |
| CompletionDiscipline.SilentCalls | scripts/runtime/heartbeat/completion_discipline.py:43-128 | calls rejected early, and duplicates of oneself, write nothing |
| CompletionDiscipline.ConflictGoesToReview | scripts/runtime/heartbeat/completion_discipline.py:140-208 | a conflict quarantines both sessions with one reason, sends both jobs to review and touches nothing else |
| CompletionDiscipline.ConflictWrites | scripts/runtime/heartbeat/completion_discipline.py:140-193 | a conflict keeps the holder's digest, result and manifest, gives the other row the submitted ones, and its reason sets both against each other |
| CompletionDiscipline.ReplayChangesNothing | scripts/runtime/heartbeat/completion_discipline.py:52-211 | repeating any disciplined call right after itself changes at most timestamps |
| CompletionDiscipline.HoldersSurviveHistories | scripts/runtime/heartbeat/completion_discipline.py:52-211 | over every disciplined history ids stay unique and every holder keeps its identity |
| CompletionDiscipline.LateReplayIsSilent | scripts/runtime/heartbeat/completion_discipline.py:107-138 | after any disciplined history, a replay of a stored submission writes nothing and is a duplicate of its own session with the recorded result |
| CompletionDiscipline.LateReplayAnswersAlike | scripts/runtime/heartbeat/completion_discipline.py:107-208 | after any disciplined history, replays of duplicates and conflicts are answered against the same holder with the same result |
| CompletionDiscipline.LateReplayRewritesReason | scripts/runtime/heartbeat/completion_discipline.py:140-193 | a late replay of a quarantined submission replaces the holder's reason when another session conflicted in between |
| CompletionDiscipline.SafeToSubmit | scripts/runtime/heartbeat/completion_discipline.py:67-127 | a session may submit safely, whatever is submitted, exactly when it is unbound or bound to that id |
| CompletionDiscipline.ReplayReturnsFirstResult | scripts/runtime/heartbeat/completion_discipline.py:78-138 | a replay returns the first answer's result exactly when the caller brought it or the row had none |
| CompletionDiscipline.ReplayAnswersDifferently | scripts/runtime/heartbeat/completion_discipline.py:78-138 | a concrete submission whose replay returns a result the first answer did not |
| CompletionDiscipline.NormalizeTwice | scripts/runtime/heartbeat/completion_discipline.py:214-222 | a normalized digest is its own normal form |
| CompletionDiscipline.NormalizeTells | scripts/runtime/heartbeat/completion_discipline.py:214-222 | a digest is accepted exactly when it spells 64 hexadecimal digits of either case between white space, and those in lower case are stored |
| NodeJournal.RunNumbersAdvance | scripts/gdad_run.py:176-195 | in every reachable journal run numbers start at 1, never fall and rise by at most one per line, only at a dispatch or redispatch |
| NodeJournal.RunIdsTell | scripts/gdad_run.py:176-195 | run ids are the node's name and a number that rises by one exactly at a redispatch and at a dispatch that none precedes |
| NodeJournal.JournalFollowsTable | scripts/gdad_run.py:41-52 | every line of every journal is a row of the transition table: the state before, the kind, the state after |
| NodeJournal.IllegalIffNoRow | scripts/gdad_run.py:366-370 | a request is refused for its state exactly when the table has no row for that state and kind |
| NodeJournal.DecisionTells | scripts/gdad_run.py:206-217 | resume leads to running, redispatch to pending, and next to accepted exactly when the run's last review is followed by a last verdict that accepts, to rejected otherwise |
| NodeJournal.LineTells | scripts/gdad_run.py:371-423 | actor, note, artifacts and dispatch ids of an appended line |
| NodeJournal.RefusalTells | scripts/gdad_run.py:371-402 | every other refusal has its exact case among the requests that the table allows |
| NodeJournal.StatusTells | scripts/gdad_run.py:250-270 | the status names the last line's state, actor and run and the ids under which that run was dispatched |
| NodeJournal.OneDispatchPerRun | scripts/gdad_run.py:186-203 | each run id is dispatched at most once, so the lookup finds the only dispatch |
| NodeJournal.LookupMeansJustified | scripts/gdad_run.py:226-247 | the lookup says accept exactly when the run's last review is followed by a last verdict that accepts |
| NodeJournal.FirstAcceptedIsJustified | scripts/gdad_run.py:206-217 | the first accepted line is a decision whose run was reviewed and then accepted |
| NodeJournal.AcceptedIsFinal | scripts/gdad_run.py:41-52 | after an accepted line come only gate lines of the same run |
| NodeJournal.VerdictNoteTells | scripts/gdad_run.py:380-384 | the note of a verdict line begins with its verdict, whatever note was passed |
| NodeJournal.EveryJournal | scripts/gdad_run.py:350-437 | the journal invariant holds after any sequence of requests |
| NodeJournal.InvStep | scripts/gdad_run.py:350-437 | one locked append keeps it |
| NodeJournal.JournalFile.AllocRunId | scripts/gdad_run.py:176-183 | the loop over lines allocates the number after the highest, which no line of the node carries yet |
| NodeJournal.JournalFile.FindDispatch | scripts/gdad_run.py:198-203 | the loop returns the last dispatch of the run |
| NodeJournal.JournalFile.FindVerdict | scripts/gdad_run.py:226-247 | the two loops return the last verdict after the last review of the run |
| NodeJournal.JournalFile.Append | scripts/gdad_run.py:366-437 | either the line and its status are both on disk or neither is; an appended line is a row of the transition table |
| PacketCap.DecodePrefix | scripts/gdad_run.py:520 | decoding any byte prefix with errors ignored gives the longest whole-code-point prefix |
| PacketCap.DecodeEncode | scripts/gdad_run.py:513-520 | encoding followed by decoding loses nothing |
| PacketCap.FittingIsLongest | scripts/gdad_run.py:517-520 | the kept prefix is exactly the longest that fits the budget |
| PacketCap.CapFieldTruncates | scripts/gdad_run.py:510-520 | text that fits is untouched; otherwise the longest fitting prefix, a line break and "[truncated]" |
| PacketCap.CapFieldFits | scripts/gdad_run.py:510-520 | the encoded result never exceeds the cap (11 bytes for smaller caps) |
| PacketCap.NarrowCapTells | scripts/gdad_run.py:510-520 | with less room than the suffix and one byte only the marker is left of text that does not fit |
| PacketCap.Utf8Tells | scripts/gdad_run.py:513 | the bytes of a code point: length by range, marked first byte, continuations, and the bits that spell it |
| PacketCap.CapOnce | scripts/gdad_run.py:510-520 | capping a capped field changes nothing |
| PacketCap.CapPacketOnce | scripts/gdad_run.py:523-538 | capping a capped packet changes nothing |
| PacketCap.CapPacketTells | scripts/gdad_run.py:523-538 | question, evidence, each of at most five done items and the three fields of every option object are the originals capped at 2048 bytes, in order |
| PacketCap.OptionsTell | scripts/gdad_run.py:528-537 | each entry of an option list is treated by itself, in order; entries that are not objects go |
| PacketCap.CapPacketFits | scripts/gdad_run.py:523-538 | no field of a capped packet takes more than 2048 bytes |
| DispatchGroups.GroupDispatches | scripts/runtime/heartbeat/runner.py:602-623 | the loop over the plan builds the specified groups, asking each executor's capability once |
| DispatchGroups.ChunkCandidates | scripts/runtime/heartbeat/runner.py:619-623 | slicing by the limit gives the specified chunks |
| DispatchGroups.GroupsConserve | scripts/runtime/heartbeat/runner.py:602-623 | the groups together hold exactly the planned dispatches |
| DispatchGroups.GroupsAreWellFormed | scripts/runtime/heartbeat/runner.py:597-623 | no group is empty; an engagement has one executor and one base and respects the limit; others are single |
| DispatchGroups.PlanTells | scripts/runtime/heartbeat/runner.py:585-623 | what is sent out: all planned dispatches, in groups of one executor and one base; an engagement exactly if the executor had the capability when it was first planned, with at most twice as many members as either setting allows and full but for the last |
| DispatchGroups.CapabilitiesTell | scripts/runtime/heartbeat/runner.py:602-610 | the capability kept for an executor is what the probe answered at its first dispatch |
| DispatchGroups.ChunksKeepPlanningOrder | scripts/runtime/heartbeat/runner.py:611-623 | the chunks of a key concatenate to its dispatches in planning order, all but the last full |
| DispatchGroups.CandidatesInOrder | scripts/runtime/heartbeat/runner.py:611-618 | the candidates of an executor and base are the dispatches planned for both, in planning order |
| DispatchGroups.OnePlaceEach | scripts/runtime/heartbeat/runner.py:602-623 | with distinct job ids every dispatch sits at exactly one place of one group |
| DispatchGroups.Collect | scripts/runtime/heartbeat/runner.py:647-667 | in any completion order every member gets an outcome from its group: what was returned, or a failure with the text of the exception |
| DispatchGroups.ExecuteDispatches | scripts/runtime/heartbeat/runner.py:585-667 | the outcomes are keyed by exactly the planned job ids |
| DispatchGroups.OwnOutcome | scripts/runtime/heartbeat/runner.py:647-667 | with distinct job ids each outcome is the dispatch's own with what its own group returned or raised |
| CursorTurn.CursorStreamTranslator.Handle | scripts/adapters/events_cursor_cli.py:193-212 | the in-place translator equals the translation function, line by line |
| CursorTurn.CursorStreamTranslator.HandleToolCall | scripts/adapters/events_cursor_cli.py:256-317 | started and completed calls, with the buffer of open calls |
| CursorTurn.CursorStreamTranslator.HandleResult | scripts/adapters/events_cursor_cli.py:319-418 | the terminal event: text, usage and one boundary |
| CursorTurn.QuietLinesTell | scripts/adapters/events_cursor_cli.py:193-254 | a session start names model and resume handle; text is buffered; lines that are not understood do nothing |
| CursorTurn.StartTells | scripts/adapters/events_cursor_cli.py:256-287 | a start emits the text so far and the call with its path and command |
| CursorTurn.CompletionTells | scripts/adapters/events_cursor_cli.py:289-317 | a completion carries its own path, command and tool, those of its start where it has none, and how the call went |
| CursorTurn.ResultTells | scripts/adapters/events_cursor_cli.py:319-418 | a result emits text, usage and a boundary whose status, error, warning, stop reason and duration are spelled out |
| CursorTurn.ToolNameTells | scripts/adapters/events_cursor_cli.py:55-80 | tool names: lower-case stems, a shell is bash, an edit is a write by its call id |
| CursorTurn.CompletionKeepsItsStart | scripts/adapters/events_cursor_cli.py:289-317 | a completion without arguments names the tool, paths and command of its start, whatever the stream says in between about other calls |
| CursorTurn.MessageIsNotDoubled | scripts/adapters/events_cursor_cli.py:203-234 | after any buffered text, a message streamed as deltas and then whole is emitted once, after that text, if and only if it is added once: with nothing buffered no delta repeats all text before it, otherwise every delta repeats the buffered text and the message does not |
| CursorTurn.RepeatedDeltaIsLost | scripts/adapters/events_cursor_cli.py:203-234 | a concrete stream whose emitted message is not the one streamed |
| CursorTurn.SecondMessageIsDoubled | scripts/adapters/events_cursor_cli.py:203-234 | a concrete stream of two messages without a tool call between them, whose second is doubled |
| CursorTurn.BoundaryPerResult | scripts/adapters/events_cursor_cli.py:319-418 | exactly the result lines yield a boundary event, one each |
| CursorTurn.StreamTells | scripts/adapters/events_cursor_cli.py:319-418 | completed work, turn end and the held-back boundaries are facts of the stream; the last boundary is completed exactly after a success |
| CursorTurn.SpoolTells | scripts/adapters/cursor_cli_adapter.py:550-610 | the spool opens with one start of the turn at the first line that is not blank; all events but the boundaries follow in order, and those are held back in order |
| CursorTurn.StreamLoop | scripts/adapters/cursor_cli_adapter.py:550-610 | the stream loop, with its break at the budget, processes every event of every line |
| CursorTurn.BudgetFollowsLastCall | scripts/adapters/cursor_cli_adapter.py:586-602 | the budget reason is present exactly when the last call the stream starts is a grep past the sixth or a read past the fifteenth |
| CursorTurn.BudgetReasonTells | scripts/adapters/cursor_cli_adapter.py:586-602 | the reason names the tool over budget and its limit |
| CursorTurn.OverrunIsNoticed | scripts/adapters/cursor_cli_adapter.py:586-602 | some line sets the reason exactly when the stream starts more calls than allowed |
| CursorTurn.OverrunIsForgotten | scripts/adapters/cursor_cli_adapter.py:419-472 | a noticed overrun is gone from the turn's error exactly when the last call is not the one over budget or the stream had a success, and from its warnings too exactly when the process then ended well |
| CursorTurn.OverrunIsTold | scripts/adapters/cursor_cli_adapter.py:419-466 | the error names the budget exactly when the last call is over it and there is no success; the crash warning names it exactly when there is one and the process failed |
| CursorTurn.SuccessHidesOverrun | scripts/adapters/cursor_cli_adapter.py:454-456 | a concrete turn whose last call is over budget and that reports nothing |
| CursorTurn.ExitTellsOverrun | scripts/runtime/local_attempt.py:583-596 | the durable record of such a turn without a success names the reason, unless the last result has a text of its own |
| CursorTurn.ShellCallForgetsOverrun | scripts/adapters/cursor_cli_adapter.py:586-602 | a concrete stream: seven grep calls set the reason, one shell call clears it |
| CursorTurn.SpoolEndsWithBoundary | scripts/adapters/cursor_cli_adapter.py:438-451 | the spool ends with a boundary event and has one per result or exactly one; it is completed exactly after a success, and cancelled exactly when the turn was cancelled before it started, or had no result, was asked to cancel and its process failed |
| CursorTurn.TurnErrorTells | scripts/adapters/cursor_cli_adapter.py:614-630 | what a turn reports: cancelled before the start, over budget, too long, or a failed process without a result, as an error, or after a success as the warning of a crash |
| CursorTurn.ClosingTells | scripts/adapters/cursor_cli_adapter.py:438-451 | the closing events: buffered text and one boundary with status and error, or the boundaries of the results with the crash warning where they have none |
| CursorTurn.ReturnTells | scripts/adapters/cursor_cli_adapter.py:373-472 | the turn comes back exactly when its attempt was ready and no exception came while it read or before its last closing event |
| CursorTurn.FinalSpoolTells | scripts/adapters/cursor_cli_adapter.py:373-472 | what is in the spool when the turn came back, was broken off, or never started |
| CursorTurn.CrashIsOnlyWarned | scripts/adapters/cursor_cli_adapter.py:419-442 | a crash after completed work stays a success and every boundary event carries a warning |
| CursorTurn.AttemptDir.RunCursorTurn | scripts/adapters/cursor_cli_adapter.py:373-472 | the turn writes exactly the specified spool and returns the specified outcome; if an exception breaks it off while reading or while writing its closing events, the spool holds exactly what was written before |
| CursorTurn.SupervisorAgreesWithStream | scripts/runtime/local_attempt.py:545-555 | the supervisor's three tests together hold exactly when the stream had a success |
| CursorTurn.FindLastTurnEnded | scripts/runtime/local_attempt.py:123-130 | the backward search returns the last boundary of the spool |
| CursorTurn.AttemptDir.PersistResult | scripts/runtime/local_attempt.py:600-636 | the worktree is given up only after result.json durably holds a commit |
| CursorTurn.AttemptDir.RunSupervisor | scripts/runtime/local_attempt.py:495-597 | a terminal record is always published; it says cancelled exactly when the turn came back and was cancelled before it started, or was asked to cancel and its process failed without a success, and plumbing exactly when the turn did not come back, or came back without a result and not so cancelled; persist is tried exactly after a success, and the worktree is gone only with exit code 0 and a durable commit |
| CursorTurn.ZeroMeansPersisted | scripts/runtime/local_attempt.py:548-597 | exit code 0 exactly when the turn returned, its stream had a success and the persist became durable |
| CursorTurn.ExitTells | scripts/runtime/local_attempt.py:545-597 | cancellation, plumbing and return code of the durable record, each as a condition on what happened |
| CursorTurn.FailureTells | scripts/runtime/local_attempt.py:583-596 | the reason in the record of a turn without a success: its last result's text, else what the turn reported, else what is known of its end |
| CursorTurn.ExitErrorTells | scripts/runtime/local_attempt.py:527-582 | the error in the record of an attempt that was not ready, broke off, or whose persist failed |
| Frontier.Checkout.AdvanceFrontier | scripts/runtime/heartbeat/frontier.py:54-122 | the loop over nodes, in place |
| Frontier.Checkout.EnsureReadyFrontierEvents | scripts/runtime/heartbeat/frontier.py:125-179 | the loop over nodes, in place |
| Frontier.LastAttemptTells | scripts/runtime/heartbeat/frontier.py:281-312 | the last attempt is the greatest stamp, known exactly when no stamp is unparseable and one is present |
| Frontier.LatestReadyTells | scripts/runtime/heartbeat/frontier.py:315-344 | the latest readiness is the greatest stamp of the node's graph-ready records |
| Frontier.RedispatchNeedsReassertion | scripts/runtime/heartbeat/frontier.py:347-387 | a ready node is dispatched exactly when no job is active and no dispatch event waits for it, and nothing was tried or a human re-asserted ready after every attempt |
| Frontier.AdvanceTells | scripts/runtime/heartbeat/frontier.py:75-122 | moves exactly the listed nodes of an opted-in project that are pending, without human gate, with every dependency complete or provisional, no job in an active state and no frontier event waiting; each once, in listed order, to ready and with one event, and nothing else |
| Frontier.EnsureTells | scripts/runtime/heartbeat/frontier.py:150-179 | injects exactly one event, in listed order, for each listed node of an opted-in project that is ready, without human gate, with every dependency complete or provisional and not dispatched for its readiness, and nothing else |
| Frontier.GatedIsLeftAlone | scripts/runtime/heartbeat/frontier.py:86-88 | neither pass gives an event to a node that is human-gated at that moment, and its status stays |
| Frontier.GatedIsNeverDispatched | scripts/runtime/heartbeat/frontier.py:160-161 | over every run in which a node stays human-gated, the frontier never dispatches it |
| Frontier.AdvanceTwice | scripts/runtime/heartbeat/frontier.py:54-122 | an immediate second call does nothing |
| Frontier.EnsureTwice | scripts/runtime/heartbeat/frontier.py:125-179 | an immediate second call does nothing |
| Frontier.OneEventPerHeartbeat | scripts/runtime/heartbeat/runner.py:215-283 | over the three passes of a heartbeat a node is dispatched twice exactly if it was put back to pending in between and could start afresh; marking nodes provisional never does that |
| Frontier.PassesAreDisjoint | scripts/runtime/heartbeat/runner.py:215-217 | the two passes at the start of a heartbeat never both dispatch a node |
| Frontier.InvStep | scripts/runtime/heartbeat/frontier.py:125-179 | every step of a run keeps the account of bootstraps against readiness records |
| Frontier.BootsAreBounded | scripts/runtime/heartbeat/frontier.py:125-179 | over every run a node is bootstrapped at most once more than humans declared it ready |
| GraphDelivery.FoundIffGreatest | scripts/runtime/graph_delivery.py:93-114 | a commit is returned exactly when the non-empty results have a greatest element, and it is that; each refusal has its exact case |
| GraphDelivery.OrderDoesNotMatter | scripts/runtime/graph_delivery.py:104-109 | the answer does not depend on the order of the listing |
| GraphDelivery.Remote.Publish | scripts/runtime/graph_delivery.py:116-128 | moves the review branch to the delivery commit exactly when it is new or stands at an ancestor; reports success only if the branch shows that commit afterwards, whatever others do meanwhile |
| GraphDelivery.Remote.Cleanup | scripts/runtime/graph_delivery.py:151-176 | answers from what its four reads saw while others change the remote, deletes exactly the target names, and nothing on refusal or dry run |
| GraphDelivery.CleanupAllowedIff | scripts/runtime/graph_delivery.py:130-176 | cleanup goes ahead exactly when a greatest result exists and the review branch contains every non-empty result |
| GraphDelivery.RefusalTells | scripts/runtime/graph_delivery.py:130-172 | a refused cleanup reports a missing review branch, a branch without the commit, or a refused deletion exactly in that case, and otherwise the error of the search |
| GraphDelivery.TargetsSeenTell | scripts/runtime/graph_delivery.py:156-165 | a target is exactly a collected result of the graph or a listed attempt of the job of one |
| GraphDelivery.CleanupLosesNothing | scripts/runtime/graph_delivery.py:151-176 | undisturbed, only the graph's own transport refs go, the review branch stays, and it contains every non-empty result whose ref is gone |
| GraphDelivery.CleanupUnderInterference | scripts/runtime/graph_delivery.py:130-176 | with others changing the remote between its reads, the review branch survives and contains every non-empty result the search saw; no result is lost exactly when it contains every commit moved in under a collected name |
| GraphDelivery.MovedResultIsLost | scripts/runtime/graph_delivery.py:156-172 | a concrete interference: a result ref that moves after the search is deleted although the branch does not contain it |
| GraphDelivery.PublishThenCleanup | scripts/runtime/graph_delivery.py:116-149 | after a publish the branch stands at the found commit, cleanup finds the same one and is not refused |
| GraphDelivery.CleanupOnce | scripts/runtime/graph_delivery.py:95-97 | after a cleanup publishing and cleaning up again are refused |
| LineBuffer.RpcClient.PopLine | scripts/adapters/pi_rpc_adapter.py:1168-1174 | pops up to the first newline, in place |
| LineBuffer.RpcClient.ReadOne | scripts/adapters/pi_rpc_adapter.py:1176-1195 | reads a chunk only when no line is buffered |
| LineBuffer.NothingLost | scripts/adapters/pi_rpc_adapter.py:1168-1195 | yielded lines and buffer put together are everything read, and no line holds a newline |
| LineBuffer.LinesAreSegments | scripts/adapters/pi_rpc_adapter.py:1168-1195 | for any chunking the yielded lines are the stream's segments in order, then the buffered ones |
| LineBuffer.ChunkingIsInvisible | scripts/adapters/pi_rpc_adapter.py:1168-1195 | drained clients that took the same bytes yielded the same lines |
| LineBuffer.EmptyReadMeansDrained | scripts/adapters/pi_rpc_adapter.py:1176-1189 | a read finds no line exactly when neither buffer nor chunk has a newline |
| LineBuffer.OnlyOneCut | scripts/adapters/pi_rpc_adapter.py:1168-1174 | there is only one way to cut a stream into lines and rest |
| LineBuffer.LinesOfEncodedText | scripts/adapters/pi_rpc_adapter.py:1168-1175 | cutting UTF-8 at newline bytes never splits a code point |
| PromptTopology.ZoneOffsets | scripts/prompt_topology.py:68-91 | four spans for protocol, project, node and attempt in this order; each starts past the text of the zones before it, non-empty ones slice back to their bodies, and empty ones have zero width |
| PromptTopology.AssembleTells | scripts/prompt_topology.py:62-66 | the prompt is protocol, project, node and attempt one behind the other, a blank line between any two that are not empty |
| PromptTopology.ZoneSlicesBack | scripts/prompt_topology.py:62-91 | the offsets agree with the joined text, for any number of zones |
| PromptTopology.CommonPrefixTokens | scripts/prompt_topology.py:112-123 | the loop finds the longest common prefix, so every common prefix is within its estimate |
| PromptTopology.EstimateTells | scripts/prompt_topology.py:102-109 | one token for every four characters, the last possibly begun |
| PromptTopology.StablePrefixShared | scripts/prompt_topology.py:62-91 | turns equal in protocol, project and a non-empty node zone share their text through the end of that zone |
| PromptTopology.SharedPrefixTokens | scripts/prompt_topology.py:112-123 | such turns share at least the estimate of that prefix |
| PromptTopology.ReuseWithinOne | scripts/prompt_topology.py:319-326 | the reuse summed by zones is within one of the estimate of the stable prefix |
| PromptTopology.ReportTells | scripts/prompt_topology.py:320-325 | the input is the sum of the four zone estimates and the reuse all but the attempt |

## Left out

- SQL, JSON, YAML and file formats, timestamp formatting, printing, subprocesses, git and network calls: rows, values,
  ordered stamps and nondeterministic answers stand for them.
- Inbox: plumbing-failure and crash exits of an orchestrator, a dispatcher that dies between queueing and spawning,
  reuse of a pid, and any claim that a project has at most one orchestrator (the shutdown removes the pid file outside
  the lock).
- Reservations.ReservationsAreSafe: operator status changes, rollback, adoption, merged-PR routing and retry
  redispatch (not capacity-checked by the code) are not steps; the queue record is part of the job row.
- Retries.RetriesAreAccounted: starts from empty tables, so handles written by earlier schema versions are not covered.
- Completion discipline: one session submitting under two ids is outside every theorem but `SafeToSubmit`, which shows
  what it loses; the wording of a conflict reason is abstract.
- Journal: a run may be redispatched, blocked and resumed before any dispatch line, so no claim that a running run was
  dispatched; gate tokens, packets on disk and model invocations are not part of this model.
- `str.isdigit`, `str.strip` and `str.lower` outside ASCII, and lone surrogates in `encode`.
- Dispatcher errors while decoding a job's dependency columns.
- Cursor turns: event envelopes, `raw.jsonl`, the session id file and usage evidence.
- Frontier: self-healing of gate tokens and routing of an event; node files and the project index are one status map.
- Cleanup: commits of attempt refs and empty results are not protected by the code and not claimed to be; sorting of
  the target list and ref-name parsing are not modelled.
- Lines after reassembly: decoding with replacement, stripping and JSON.
- Prompt wording, cost ratios, provider token measurements and the volatility check, which always passes.
- `reconciler.py`, `verification/bridge.py`, `retry_budget.py`, the intake server, operator display, export and status
  commands are not part of this model.
