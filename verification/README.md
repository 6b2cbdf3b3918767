# Proofs about the agent runtime and the local installer

A Dafny model of the stateful cores of the agent runtime (`app/agent/`), of the scheduled
executions (`app/application/`), and of the local installer and generator scripts
(`scripts/`), with proofs of what each of them promises.
`dafny verify dfyconfig.toml` checks everything.

| module | models | main results |
|---|---|---|
| `ThinkTags` | the filter that hides `<think>…</think>` in a token stream, and the regular expression that does it for whole replies | every chunking gives what a whole-text scanner gives; exactly when the whole output is free of tags; the two filters agree up to surrounding whitespace if and only if no end tag is orphaned and `flush` drops nothing |
| `GraphCache` | ownership of models and controllers in building, current and retired graphs, with other coroutines running at every await of a collection | nothing is lost, nothing is closed twice, a model is closed only when nothing can use it; exactly when a close starts; `invalidate` means everything is closed, and returns True if nothing stands in its way |
| `SessionTasks`, `Sessions` | session queues, one worker each, stop, clear, close and their deferred halves, as a transition system whose steps are the code between awaits | one unfinished worker per session; every accepted submission is in exactly one place, and every steered message meets one fate; a close that returned True is quiet; exactly when a shut gate accepts, and when a cleanup can meet a new worker |
| `SessionSteps` | the same transition system, seen one field at a time | exactly which steps give a task which outcome; a session's tasks are served in order; exactly when a submission is accepted, when a worker comes, is asked to end and ends, and when the gate, the lock, a queue, an agent or a pending shutdown changes |
| `Steering` | the steering inbox and the part of a worker's run that uses it | what becomes of every accepted message in every run, returning or raising; exactly which calls of the agent make a run return, and which leave applied messages unprocessed; a closed inbox accepts nothing ever again |
| `EnvFile` | the reader and writer of `app.env` on whole files, with JSON escapes and `splitlines` | a written string is read back if and only if the key can be assigned and no raw line break is in the value; exactly when a write keeps another key; other ways to write a value, and truth values |
| `ResourceFiles` | replacement of the site resources with a rollback, removal of other interpreters' extensions, publication of the frontend | replacement is all or nothing exactly if the rollback succeeds, which one failure cannot prevent; what is lost otherwise |
| `SchemaClosure` | the worklist of referenced models | it computes reachability by `$ref` and `anyOf` exactly, on cyclic and dangling schemas too |
| `ServerEvents` | the streaming and the batch parser of server-sent events | they agree; what a line, a block and an answer say, exactly; printing to a text and parsing it is the identity under an exact condition |
| `RuntimeCache` | the throttled signature cache of the runtime configuration, with concurrent loads that scan and read file by file | loads are fresh in every run if and only if no file's entry repeats; none returns what was superseded a second before |
| `TaskRuns`, `TaskExecution` | the transactions on scheduled tasks and their runs; claim, processing and finalisation under cancellation, with other transactions in between | every run ends exactly once; a task never has two running runs; what the rows show after each transaction |
| `UsageAccounting` | token accounts of a conversation, fed out of order | each total is the sum of the numbers reported under its name, in any order; what is said about the latest request comes from it |
| `Text`, `TextLines`, `Wrappers` | the operations of Python strings that the others need, lines and universal newlines, optional values | |

Code that updates objects in place is modelled by classes whose methods are proved against
functions of the old state; what the repository promises is then proved about those functions,
over every run. Everything unknown to a component (what an awaited call does, which operation
fails, what other coroutines do meanwhile) is a parameter over which the theorems quantify.

## Findings

Properties that one might expect and that do not hold of the code as it is, with the members
that give an input which shows it or the exact condition under which they do hold:

- The streamed output as a whole may spell a tag although no fragment does
  (`ThinkTags.FragmentsMaySpellATag`: for example `<thi</think>nk>`). It is free of tags
  exactly when at no removed tag the visible text before and after it spell one
  (`ThinkTags.TagFreeExactly`).
- The streaming and the non-streaming filter differ in orphaned end tags and in a held
  beginning of an end tag, and in nothing else that is visible
  (`ThinkTags.StreamingAgreesWithRegex`). Inside an unclosed block, `$` without
  `re.MULTILINE` also matches before a final newline, so the regular expression may keep that
  newline; stripping hides it (`ThinkTags.SameUpToNewline`).
- A string with U+0085, U+2028 or U+2029 is never read back from `app.env`, because
  `json.dumps(..., ensure_ascii=False)` leaves them raw and `splitlines` breaks at them
  (`EnvFile.RoundTripCondition`). Such a value, or a key that no line can assign, may also
  change what another key reads: exactly when the written text assigns that key by itself, no
  earlier line does, and the value differs (`EnvFile.KeptExactly`; writing under `A=B`
  assigns `A`, `EnvFile.ForeignKeyIsAssigned`).
- If an operation of the resource rollback fails as well, the originals that are still in the
  temporary directory are deleted with it (`ResourceFiles.RollbackCanLose` shows a lost file).
  Wherever the sources differ from what they replace, the replacement is all or nothing exactly
  if the rollback does not get stuck, which takes two failures
  (`ResourceFiles.AllOrNothingExactly`), and where every source replaces a file, a stuck
  rollback always loses an original (`ResourceFiles.LosesAnOriginalExactly`).
- `submit_steering_message` does not ask the gate, so a message may be accepted after a close
  whose wait for a worker timed out (`Sessions.ShutGateCanAccept`). With the gate shut that is
  the only thing that is accepted, exactly if the message comes from the active task's user,
  gets the lock, and finds the window open with room (`Sessions.WhenAShutGateAccepts`). While
  `close` holds the lock nothing is accepted.
- The deferred cleanup of a cleared session can clean the agent of a worker that was created
  after the old one finished (`Sessions.WhenCleanupMeetsAWorker`,
  `Sessions.CleanupCanMeetAWorker`): `process_message` accepts again as soon as the old worker
  is done, which may be before the deferred cleanup gets the lock. The cleanup closes the
  session's inbox, and messages pending in it at that moment are dropped
  (`Steering.ProcessSettles`, `Sessions.HowAWaitEnds`).
- A cleanup closes an inbox for good, but a close of the manager, or a cleanup that fails,
  leaves the closed inbox registered (`Sessions.ReopeningKeepsAShutInbox` is a run from the
  initial state, `Sessions.ReopenedWithShutInbox` the general case). A run opens its window
  exactly if the registered inbox is not closed (`Sessions.OpensUnlessShut`), so the session
  cannot be steered until the inbox is dropped (`Sessions.ShutInboxStaysShut`).
- A run that raises leaves messages that were applied and never processed, unless the agent's
  very first call raises, and loses what is pending (`Steering.ProcessSettles`, with
  `Steering.RaisingRunLoses` as an example).
- A file that returns to an earlier entry makes the runtime configuration stale
  (`RuntimeCache.RepeatedSignatureIsStale`, `RuntimeCache.FreshnessCondition`).
- A comment says that model and context window are always replaced together and never spliced
  from two requests. They come from one report exactly if the last report that stated a window
  named a model (`UsageAccounting.OneSourceExactly`). The middleware always includes
  `model` in its budgets, so the splicing budget of `UsageAccounting.ModelsMayBeSpliced` has no
  producer; the usage of a model without a name is spliced if recording its budget had raised
  (`UsageAccounting.UnnamedModelIsSpliced`).
- An empty report counts a model call as a review's usage and not otherwise
  (`UsageAccounting.WhichCallsCount`). No caller sends one: the recorder of reviews adds a
  `source` to every report.

## Model

| member | source | states |
|---|---|---|
| ThinkTags.NoTagAcross | app/agent/orchestrator.py:300-301 | Neither tag can begin before a `<` and run across it, since `<` is only the first character of both: the fact that makes one-pass scanning sound. |
| ThinkTags.ScanHolds | app/agent/orchestrator.py:351-378 | What a scan holds back is a proper prefix of a tag that may still be completed: of either tag outside a block, of the end tag inside one. |
| ThinkTags.ScanResumes | app/agent/orchestrator.py:334-336 | A scan of `a + b` is the scan of `a` resumed on its held suffix plus `b`, for every cut. |
| ThinkTags.CuttingIsIrrelevant | app/agent/orchestrator.py:327-379 | Any sequence of chunks gives the output, the state and the retained buffer of one scan of the whole text. |
| ThinkTags.OutputIsSubsequence | app/agent/orchestrator.py:327-391 | The output is a subsequence of the input, and so it is together with what `flush` releases: the filter only deletes. |
| ThinkTags.FragmentsMaySpellATag | app/agent/orchestrator.py:340-350 | A start tag cut by an end tag at any inner position is output as a whole start tag: tag-freedom holds per fragment only. |
| ThinkTags.PiecesAreOutput | app/agent/orchestrator.py:337-365 | The visible text is the concatenation of its pieces between removed tags. |
| ThinkTags.PiecesAreFree | app/agent/orchestrator.py:338-350 | No piece between removed tags contains a tag. |
| ThinkTags.ContainedIsSpelled | app/agent/orchestrator.py:340-350 | Pieces that are free of a tag contain it together only by spelling it across one of the cuts. |
| ThinkTags.TagFreeExactly | app/agent/orchestrator.py:327-391 | The whole streamed text, with what `flush` releases, is free of tags if and only if at no removed tag the visible text before and after it spell one. |
| ThinkTags.TagFreeUnlessOpened | app/agent/orchestrator.py:327-391 | It is free of tags if at no removed tag the visible text so far ends in a non-empty proper prefix of a tag. |
| ThinkTags.FindPartialTagLength | app/agent/orchestrator.py:317-325 | The result is the length of the longest proper, non-empty prefix of the tag that the text ends with, or 0 if there is none. |
| ThinkTags.HoldsLongestPartial | app/agent/orchestrator.py:352-365 | Outside a block without a whole tag, keeping the longer of the two partial tags is what the scanner does, and what is released is free of tags. |
| ThinkTags.HidesLongestPartial | app/agent/orchestrator.py:371-378 | Inside a block without an end tag, forgetting all but the partial end tag changes nothing that the scanner will ever output. |
| ThinkTags.PartialOfHeld | app/agent/orchestrator.py:385-389 | The test in `flush` (a partial end tag of length at least 2) holds exactly when the whole held suffix is such a prefix. |
| ThinkTags.ThinkTagStripper.constructor | app/agent/orchestrator.py:303-308 | A new filter is outside a block and holds nothing. |
| ThinkTags.ThinkTagStripper.Reset | app/agent/orchestrator.py:310-315 | The filter is outside a block and holds nothing. |
| ThinkTags.ThinkTagStripper.Process | app/agent/orchestrator.py:327-379 | The fragments and the new state are the scan of the old buffer and the new text; at most 7 characters stay; every fragment is non-empty and free of tags; the result is true iff something was emitted. |
| ThinkTags.ThinkTagStripper.Advance | app/agent/orchestrator.py:337-378 | One pass of the loop keeps the scan of what is left, and shortens the buffer unless the loop ends. |
| ThinkTags.ThinkTagStripper.Flush | app/agent/orchestrator.py:381-391 | The held suffix is released unless hidden or a beginning of `</think>` of two or more characters; inside a block the buffer stays. |
| ThinkTags.FilterStream | app/agent/orchestrator.py:327-391 | All chunks and a flush give the scanner's output of the whole text plus the tail that `flush` releases. |
| ThinkTags.InkDifference | app/agent/orchestrator.py:2753-2757 | The regular expression keeps exactly as many more visible characters than the stream as there are in orphaned end tags and in the tail that `flush` drops. |
| ThinkTags.SameUpToNewline | app/agent/orchestrator.py:2753-2757 | Without orphaned end tags and dropped tails the two texts are equal, or differ in one final newline. |
| ThinkTags.StreamingAgreesWithRegex | app/agent/orchestrator.py:2753-2757 | The two filters give the same stripped text if and only if no end tag is orphaned and nothing is dropped by `flush`. |
| GraphCache.NextKeepsInvariant | app/agent/graph.py:141-266 | Every step of an owner or of a collection keeps: scopes are in one place, scopes list exactly the open resources, closes are safe and single, a seal reaches everything. |
| GraphCache.RunKeepsInvariant | app/agent/graph.py:141-266 | So does every interleaving of builds, publications, retirements, seals and collections with failed and cancelled closes. |
| GraphCache.NothingIsLostOrClosedTwice | app/agent/graph.py:133-266 | In every run a registered resource that was not closed is still listed in a scope of the cache, none is closed twice, and none is attempted twice in a pass. |
| GraphCache.InvalidateMeansAllClosed | app/agent/graph.py:199-205 | When no scope is left, the closed resources are exactly all that were ever registered, each closed once. |
| GraphCache.ModelsAreClosedOnlyWhenUnused | app/agent/graph.py:236-254 | While a model's close is in flight no building or current scope lists it and no retired scope with an unclosed controller does; at its start no review is using models. |
| GraphCache.SealedStaysSealed | app/agent/graph.py:42-65 | After `seal` no new graph becomes current, and every controller listed in the cache then or later has been sealed. |
| GraphCache.SealedBlocksPublish | app/agent/graph.py:160-181 | From a sealed cache every run leaves the published graph or takes it away, never replaces it. |
| GraphCache.OwnersKeepClosesSafe | app/agent/graph.py:34-52 | No step of another coroutine during an awaited close makes that close unsafe. |
| GraphCache.PassKeepsClosedOnce | app/agent/graph.py:221-254 | A returning close never closes something a second time. |
| GraphCache.AgentGraphCache.constructor | app/agent/graph.py:112-123 | A new cache owns nothing. |
| GraphCache.AgentGraphCache.EnterBuild | app/agent/graph.py:149-154 | Refines the step that registers a building scope, refused once sealed. |
| GraphCache.AgentGraphCache.OwnModel | app/agent/graph.py:34-40 | Registers a model in any scope; under the assumption on callers that is the modelled step. |
| GraphCache.AgentGraphCache.OwnMiddlewares | app/agent/graph.py:42-52 | Registers the closable controllers in any scope, sealing them in a sealed one; under the assumption on callers that is the modelled step. |
| GraphCache.AgentGraphCache.Publish | app/agent/graph.py:160-173 | Makes any scope current and retires the previous one, refused once sealed; for a scope being built or current that is the modelled step. |
| GraphCache.AgentGraphCache.LeaveBuild | app/agent/graph.py:155-157 | Refines the step that retires a scope which was not published. |
| GraphCache.AgentGraphCache.Seal | app/agent/graph.py:175-181 | The loop over all owned scopes seals each of them and every controller in them, as one step. |
| GraphCache.AgentGraphCache.Retire | app/agent/graph.py:190-197 | Refines the step that retires the current scope. |
| GraphCache.AgentGraphCache.VisitResource | app/agent/graph.py:221-254 | Refines the visit of a resource, whose effect the next two rows state. |
| GraphCache.VisitStartsExactly | app/agent/graph.py:221-254 | A visit starts a close if and only if the resource was not attempted in this phase, no building or current scope lists it, and, for a model, no retired scope that lists it has a controller and no review runs. |
| GraphCache.RetiredGivesUpExactly | app/agent/graph.py:230-254 | A retired scope loses a resource by a visit if and only if that was not attempted and is active elsewhere, and by a close if and only if it succeeds. |
| GraphCache.AgentGraphCache.FinishAwait | app/agent/graph.py:232-254 | Refines the code after it: a closed resource is taken off every retired scope, any other stays. |
| GraphCache.AgentGraphCache.CloseRetired | app/agent/graph.py:216-254 | The nested loops of either phase, with other tasks running at every await, are a run of the steps; if every close succeeds and nobody interferes, nothing of the phase's kind is left. |
| GraphCache.SmoothVisitCloses | app/agent/graph.py:221-254 | In such a phase every resource visited is closed. |
| GraphCache.SmoothPhaseEnds | app/agent/graph.py:256-266 | And after both phases no retired scope is left. |
| GraphCache.AgentGraphCache.Collect | app/agent/graph.py:256-266 | A whole collection, completed or cancelled anywhere, is a run of the steps and keeps the invariant; if nothing is in use and every close succeeds, it completes and leaves no scope. |
| GraphCache.AgentGraphCache.Invalidate | app/agent/graph.py:199-205 | True means that everything ever registered is closed; from every consistent state in which nothing builds and no review runs the result is True if every close succeeds and nobody interferes. |
| Steering.SteeringInbox.constructor | app/agent/steering.py:76-86 | A new inbox is open, has no window and holds nothing. |
| Steering.SteeringInbox.BeginRun | app/agent/steering.py:95-103 | Opens the window, or leaves it open, unless the inbox is closed; what is pending counts as accepted in it. |
| Steering.SteeringInbox.FinishRun | app/agent/steering.py:105-114 | Closes the window and hands out everything pending, unnotified. |
| Steering.SteeringInbox.Enqueue | app/agent/steering.py:116-142 | Accepts iff the window is open, the user is the owner and fewer than 8 messages are pending; an accepted message is new and last. |
| Steering.SteeringInbox.Consume | app/agent/steering.py:144-161 | Takes everything pending and applies it in order. |
| Steering.SteeringInbox.ConsumeNowait | app/agent/steering.py:163-178 | The same, or nothing at all while the lock is held. |
| Steering.SteeringInbox.Close | app/agent/steering.py:187-197 | The inbox, idle or not, is closed, has no window, is empty, and hands out everything pending, which its caller drops. |
| Steering.ClosedForGood | app/agent/steering.py:95-197 | After a close no sequence of begins, finishes, takes, submissions and further closes opens a window or accepts a message. |
| Steering.SteeringInbox.Meanwhile | app/agent/steering.py:116-197 | What others do during an await is the fold of the single accesses. |
| Steering.AfterAllKeeps | app/agent/steering.py:116-197 | Whatever others do, the inbox stays consistent, everything accepted is applied, pending or dropped in this order, only what the graph takes is applied, and nothing changes outside a window. |
| Steering.ProcessMessage | app/agent/session.py:842-887 | The loops of the worker compute the outcome of `Process`, whatever happens during the calls of the agent and before the window closes. |
| Steering.ProcessSettles | app/agent/session.py:842-887 | In every run, returning or raising: accepted is applied, then lost, then dropped; applied is injected, processed in order, or unprocessed; a returning run loses nothing; everything applied is seen to if and only if no call raises among those that a run without failures would make, or the first one does. |
| Steering.ReturnsExactly | app/agent/session.py:842-887 | A run calls the agent for its own message and for each that it would process if no call raised; it returns if and only if none of these calls raises, and then does exactly that. |
| Steering.ServeSettles | app/agent/session.py:848-864 | So it is for the loop that takes batches, from any point of it. |
| Steering.DrainSettles | app/agent/session.py:865-887 | So it is for the messages that arrived before the window closed. |
| Steering.RaisingRunLoses | app/agent/session.py:885-887 | A concrete run in which two messages are applied and not processed and a third is lost. |
| Steering.ProcessLast | app/agent/session.py:865-883 | The final drain computes the outcome of `Drain`: each message is notified, then processed. |
| Steering.CallAgent | app/agent/session.py:885-887 | A raising call of the agent closes the window and empties the inbox; a returning one leaves what others made of it. |
| Steering.TakenInOrder | app/agent/session.py:848-862 | Batches taken one after another are in order as a whole. |
| SessionTasks.PutKeeps | app/agent/session.py:470-470 | Enqueuing a new task below the limit of 8 keeps the bookkeeping of queues and places. |
| SessionTasks.TakeKeeps | app/agent/session.py:593-593 | So does handing the first task to a worker. |
| SessionTasks.DrainKeeps | app/agent/session.py:687-707 | Discarding settles every task of a queue, keeps the bookkeeping and empties the queue. |
| SessionTasks.DiscardKeeps | app/agent/session.py:914-924 | Unmapping a session's queue together with discarding its tasks leaves no task in an unmapped queue. |
| SessionTasks.DropIfEmptyKeeps | app/agent/session.py:680-685 | A worker that ends unmaps only its own queue, and only an empty one. |
| Sessions.StoppedMeansFinished | app/agent/session.py:1094-1142 | The bounded wait returns True only for a finished worker, and passes on its caller's own cancellation and no other. |
| Sessions.NextKeepsInvariant | app/agent/session.py:415-1142 | Every step of a worker, of the manager, or at an inbox without the lock keeps the whole invariant of queues, workers, inboxes, locks and close. |
| Sessions.RunKeepsInvariant | app/agent/session.py:415-1142 | So does every interleaving, with any outcome of any wait. |
| Sessions.WorkersKeepCore | app/agent/session.py:580-685 | Every step of a worker, from its first to its `finally`, keeps the bookkeeping. |
| Sessions.ManagerKeepsCore | app/agent/session.py:899-1142 | Every step of submission, stop, clear, close and their deferred halves keeps it. |
| Sessions.OneWorkerPerSession | app/agent/session.py:471-477 | In every reachable state two unfinished workers of one session are the same worker. |
| Sessions.EveryTaskIsAccountedFor | app/agent/session.py:588-707 | Every task put in a queue is once in a mapped queue, or in one worker's hands, or done with a settled future; queues hold at most 8; unmapped queues hold none. |
| Sessions.SteeringOnlyIntoARun | app/agent/session.py:488-517 | Messages are pending only while a worker of the session processes, at most 8; what was steered is never queued as well. |
| Sessions.EverySteeredMessageHasOneFate | app/agent/session.py:843-887 | In every run a steered message waits in one inbox, once, while a worker of its session processes, or it has been applied, lost, dropped or detached, and stays so in every continuation. |
| Sessions.HowAWaitEnds | app/agent/session.py:848-887 | Each of these fates is met at exactly one kind of step: the run takes the message, or closes its window and notifies or loses it, or a cleanup closes the inbox, or the inbox is unregistered. |
| Sessions.FuturesSettleOnce | app/agent/session.py:634-654 | A settled completion future keeps its outcome in every run. |
| SessionSteps.OutcomesAreExact | app/agent/session.py:634-707 | In every run a future is delivered, failed or cancelled if and only if one of its steps made it so: delivered by a return with the gate open and no cancellation requested; failed by an exception, a cancellation with the gate shut, or a close that discarded the queue; cancelled by its caller, a closed scope, a stop or a clear that discarded the queue, a cancellation with the gate open, or a return after a stop or with the gate shut. |
| SessionSteps.TasksAreServedInOrder | app/agent/session.py:587-593 | No worker has the second of two tasks of a queue in its hands while the first still waits there, in any run. |
| SessionSteps.SubmissionsAreAcceptedExactly | app/agent/session.py:415-477 | A submission is accepted if and only if the gate is open, the lock free and no shutdown pending, and then by the inbox if it joins the active task, else by the queue if that holds fewer than 8; a worker is created exactly if there is no live one. |
| SessionSteps.WorkersComeExactly | app/agent/session.py:471-477 | In every run a worker comes into being only for a queued submission; the restart in a stop never happens. |
| SessionSteps.WorkersEndExactly | app/agent/session.py:580-685 | A worker ends exactly if it starts cancelled or without a queue, waits and is idle or cancelled, or leaves a task by an exception or after a request to cancel. |
| SessionSteps.AskedToEndExactly | app/agent/session.py:904-962 | A worker is cancelled exactly by a stop or clear of its session that gets the lock, and by a close; its cancellation is then requested too. |
| SessionSteps.CancelRequestsExactly | app/agent/session.py:680-682 | A request to cancel stays from there until a worker of the session ends, or a deferred close does. |
| SessionSteps.ActiveTasksExactly | app/agent/session.py:623-666 | In every run a session's active task is the one a worker of the session is on, and there is none otherwise. |
| SessionSteps.AgentsMoveExactly | app/agent/session.py:747-792 | An agent is active from its making by a run to its replacement by a run, or to a cleanup that converged. |
| SessionSteps.CleanupsStartExactly | app/agent/session.py:994-1092 | An agent's cleanup is started by a clear once its worker has finished, by a close unless it gave up on its worker, and by the deferred halves of both. |
| SessionSteps.PendingShutdownsExactly | app/agent/session.py:1094-1142 | A session is marked as pending shutdown from a wait that was given up until its worker is known to have finished. |
| SessionSteps.ClearsArePendingExactly | app/agent/session.py:969-996 | A clear is pending from its wait to the end of the worker, or to the deferred cleanup. |
| SessionSteps.QueuesAreMappedExactly | app/agent/session.py:415-470 | A session has a queue from the first task put there until a worker leaves it empty, or a stop, clear or close pops it. |
| SessionSteps.GatesMoveExactly | app/agent/lifecycle.py:28-127 | The gate opens by an initialisation and shuts by a close; the manager is closed exactly by a close that has left no agent, until it is initialised again. |
| SessionSteps.LockMovesExactly | app/agent/session.py:893-1092 | The lock is taken exactly by the operations that wait or clean up, and released exactly when what they wait for last has come. |
| Sessions.SubmissionGoesToOnePlace | app/agent/session.py:415-477 | A submission is appended to the inbox, or to the queue with a live worker behind it, or rejected without a trace: exactly one of the three. |
| Sessions.WhatIsAccepted | app/agent/session.py:415-562 | A queue accepts only a submission that gets the lock while the gate is open; an inbox accepts only into an open window with room, from such a submission or from a direct message of the active task's user that gets the lock. |
| Sessions.WhenAShutGateAccepts | app/agent/session.py:540-562 | With the gate shut something is accepted if and only if a direct message of the active task's user gets the lock and finds an open window with room. |
| Sessions.ShutGateCanAccept | app/agent/session.py:552-562 | A concrete run, from the initial state, in which that happens: a close whose wait for the worker timed out has returned. |
| Sessions.ClosedAcceptsNothing | app/agent/session.py:540-562 | A closed manager accepts nothing by any step: no worker is left to keep a window open. |
| Sessions.ClosedStaysClosed | app/agent/lifecycle.py:28-52 | A closed manager stays closed and accepts nothing in any run without `initialize`. |
| Sessions.CloseTrueMeansQuiet | app/agent/lifecycle.py:45-174 | After a close that returned True, on the direct or the deferred path, no worker is unfinished, no queue mapped, no agent active, until the next `initialize`. |
| Sessions.ShutGateCreatesNothing | app/agent/lifecycle.py:53-92 | With the gate shut no queue, no worker and no agent comes into being. |
| Sessions.WhenCleanupMeetsAWorker | app/agent/session.py:1061-1092 | An agent's cleanup starts beside an unfinished worker of its session if and only if it is the deferred cleanup of a session that got a new worker meanwhile. |
| Sessions.CleanupCanMeetAWorker | app/agent/session.py:420-423 | A concrete run, from the initial state, in which that happens. |
| Sessions.ShutInboxStaysShut | app/agent/session.py:821-824 | An inbox that a cleanup closed stays closed, and its window shut, in every run that does not drop it. |
| Sessions.ReopenedWithShutInbox | app/agent/lifecycle.py:115-127 | From every state in which a close cleans up the last agent, it can return True and the manager be initialised again with that inbox registered and closed. |
| Sessions.ReopeningKeepsAShutInbox | app/agent/lifecycle.py:115-127 | A concrete run, from the initial state, in which that happens. |
| Sessions.OpensUnlessShut | app/agent/steering.py:95-103 | A run that begins has an open window if and only if the inbox registered for its session is not closed. |
| TextLines.NewlinesAreUniversal | scripts/local_setup.py:789-792 | Reading leaves no carriage return, and changes no text without one. |
| TextLines.SplitGivesLines | scripts/local_setup.py:789-792 | The lines are lines, and concatenated they are the text. |
| TextLines.SplitAfterLines | scripts/local_setup.py:789-792 | Splitting resumes after any complete lines. |
| EnvFile.JsonRoundTrip | scripts/local_setup.py:795-800 | Every string decodes from its own JSON text (section 7 of RFC 8259). |
| EnvFile.CutBodyFails | scripts/local_setup.py:817-822 | A JSON string cut before its closing quote decodes to nothing. |
| EnvFile.ReadEnvValue | scripts/local_setup.py:803-826 | The value of the first line that assigns the key, or nothing if none does. |
| EnvFile.WriteEnvValue | scripts/local_setup.py:829-853 | The written text is that of the lines with the first assigning line replaced, or a new last line. |
| EnvFile.WriteEnvValues | scripts/local_setup.py:856-861 | After writing several distinct keys each reads as written and all others as before. |
| EnvFile.WrittenLines | scripts/local_setup.py:838-853 | The written file splits into the same lines but for the one written, and a completed last line. |
| EnvFile.WrittenIsReadBack | scripts/local_setup.py:803-853 | A value without raw line breaks is read back, whatever the file held: comments, duplicates, no final newline. |
| EnvFile.WrittenTextLines | scripts/local_setup.py:838-853 | Whatever is written, under any text as a key, stands among the lines of the file as it would stand alone. |
| EnvFile.KeptExactly | scripts/local_setup.py:838-853 | Writing any value under any key keeps what another key reads if and only if the written text does not assign it by itself, or an earlier line does, or both assign the same. |
| EnvFile.ForeignKeyIsAssigned | scripts/local_setup.py:838-851 | Writing under `A=B` assigns `A`. |
| EnvFile.CompletedReadsTheSame | scripts/local_setup.py:849-850 | Completing the last line with a newline changes no key's value. |
| EnvFile.OnlyKeysAreFound | scripts/local_setup.py:810-815 | A text with `=`, a line break, surrounding space or a leading `#` is a key of no file. |
| EnvFile.BrokenIsNotReadBack | scripts/local_setup.py:792-800 | A string with a raw line break is never read back. |
| EnvFile.RoundTripCondition | scripts/local_setup.py:803-853 | A string is read back if and only if its key can be assigned and it has no U+0085, U+2028 or U+2029. |
| EnvFile.OtherFormsAreRead | scripts/local_setup.py:816-825 | A value in single quotes, or in double quotes that are no JSON text, reads as what is between the quotes, and a bare value as itself. |
| EnvFile.TruthsExactly | scripts/local_setup.py:1496-1500 | Exactly the words 1, true, yes, y and on are true, in any case and with space around them; the default is for a missing or empty value. |
| EnvFile.BooleansRoundTrip | scripts/local_setup.py:1496-1500 | A written boolean is read as that boolean, whatever the default. |
| ResourceFiles.SiteDirectory.ReplaceResourceFiles | scripts/local_setup.py:1252-1283 | The loops over the directory compute the outcome, the files and the operations used of `Replace`, for every choice of operations that fail. |
| ResourceFiles.ReplacementEnds | scripts/local_setup.py:1252-1283 | Without a failure every selected file is installed; after one the directory is what it was; only after a second one, in the rollback, an installed source stays or an original is not home, every selected name holds its original, its source or nothing, and other files are untouched. |
| ResourceFiles.AllOrNothingExactly | scripts/local_setup.py:1276-1283 | For sources that differ from what they replace, the directory is as before or completely installed if and only if the rollback does not get stuck, and getting stuck takes exactly two failures. |
| ResourceFiles.LosesAnOriginalExactly | scripts/local_setup.py:1276-1283 | Where every source replaces a different file, a failed replacement loses an original if and only if its rollback gets stuck. |
| ResourceFiles.RollbackCanLose | scripts/local_setup.py:1269-1283 | A concrete replacement after which the only file is gone. |
| ResourceFiles.SiteDirectory.RollBack | scripts/local_setup.py:1276-1283 | The two loops compute the outcome of `Rollback`: installed files are removed, the last one first, then the originals are moved home, until an operation fails. |
| ResourceFiles.Stage | scripts/local_setup.py:1260-1263 | Staging copies every source, or fails with the directory untouched. |
| ResourceFiles.InstalledFiles | scripts/local_setup.py:1252-1283 | Installing gives each selected name its source and touches no other. |
| ResourceFiles.RollbackEnds | scripts/local_setup.py:1276-1283 | Whichever replacement was under way, a rollback gives the original directory, or one of its operations fails and something is left undone. |
| ResourceFiles.InstallEnds | scripts/local_setup.py:1266-1283 | From any point of the loop the rest of the replacement ends in one of these three ways. |
| ResourceFiles.SiteDirectory.CopyResourceFiles | scripts/local_setup.py:1216-1249 | Missing sources and incomplete sets change nothing; success leaves the replaced files without other native libraries; a failed removal leaves something in between; a failed rollback leaves something undone. |
| ResourceFiles.SiteDirectory.RemoveOthers | scripts/local_setup.py:1239-1247 | Only native site libraries other than the active one are removed, and all of them if no removal fails. |
| ResourceFiles.TwoNames | scripts/local_setup.py:1316-1334 | On every platform the extension counts as a native site library and the data file does not. |
| ResourceFiles.NamesTellApart | scripts/local_setup.py:1316-1334 | The name of an extension determines the system, the processor on Linux, and the interpreter. |
| ResourceFiles.OnlyActiveExtensionLeft | scripts/local_setup.py:1236-1247 | After a copy the active extension is the only native site library, both runtime files hold their sources, all else is untouched. |
| ResourceFiles.FrontendDirectories.Publish | scripts/local_setup.py:1183-1200 | A frontend is published whole or not at all, and the previous one is in place or in the backup until the new one is in place. |
| SchemaClosure.ReferencedModels | scripts/generate_agent_skill_docs.py:607-647 | The result is exactly the set of names that a chain of references reaches from the operations; the worklist terminates on every schema. |
| SchemaClosure.CollectRoots | scripts/generate_agent_skill_docs.py:608-625 | The starting names are those that the buckets' properties refer to locally. |
| SchemaClosure.Expand | scripts/generate_agent_skill_docs.py:628-647 | A model adds exactly its children, and puts exactly the new ones in the worklist, each once. |
| SchemaClosure.EdgesExactly | scripts/generate_agent_skill_docs.py:633-645 | A model refers to a name if and only if the `$ref` of one of its properties, or of an `anyOf` item of one, starts with `#/$defs/` and ends in a slash and that name. |
| SchemaClosure.RootsExactly | scripts/generate_agent_skill_docs.py:608-625 | The starting names are exactly those to which a property of a bucket refers, or of the model for which the bucket's own `$ref` stands. |
| SchemaClosure.LastSegmentExactly | scripts/generate_agent_skill_docs.py:641-641 | The name of a reference is the one text without a slash that follows its last slash. |
| SchemaClosure.EdgeIsReachable | scripts/generate_agent_skill_docs.py:633-645 | What a reachable model refers to is reachable. |
| SchemaClosure.ClosedHoldsReachable | scripts/generate_agent_skill_docs.py:627-647 | A set that holds the roots and is closed under references holds everything reachable. |
| ServerEvents.IterSseEvents | app/agent/mcp.py:163-187 | The streaming parser yields the events of the blocks of the text, an unterminated last one included. |
| ServerEvents.ParseSseTextResponse | app/agent/mcp.py:190-219 | The batch parser returns the answer of the first event with the id among those the streaming parser would yield for the lines of the text, and fails iff there is none. |
| ServerEvents.AnswerIsFirst | app/agent/mcp.py:200-202 | An answering event decides the result, whatever follows it and whatever precedes it without answering. |
| ServerEvents.FirstAnswerExactly | app/agent/mcp.py:190-235 | There is no answer exactly if no event named message or messages carries an object with the id; the first that does decides, as an error exactly if the object has one. |
| ServerEvents.LinesParseExactly | app/agent/mcp.py:176-181 | A line is a comment exactly if it starts with a colon; otherwise its first colon ends the name, and one space after that is dropped. |
| ServerEvents.BlocksSay | app/agent/mcp.py:182-187 | A block is an event exactly if it has a data field; its last event field names it, unless that is empty. |
| ServerEvents.BlankLineSeparates | app/agent/mcp.py:171-176 | What is read before a blank line and after it do not depend on each other. |
| ServerEvents.OneBlock | app/agent/mcp.py:169-187 | Lines without a blank one are one block. |
| ServerEvents.EventsStay | app/agent/mcp.py:171-176 | Events are only ever added: a later line takes back none. |
| ServerEvents.ReadIsPrintable | app/agent/mcp.py:169-187 | Whatever the lines, every event read from them has a name, no break in it, and none but newlines in its data. |
| TextLines.LinesOfUnlines | app/agent/mcp.py:196-196 | Lines without a break are what `splitlines` gives of the text made of them. |
| ServerEvents.RoundTripCondition | app/agent/mcp.py:190-219 | Events printed as one text and divided by `splitlines` are read back if and only if each has a name, no name has a line break, and no data has one other than a newline (compare section 9.2.6 of the WHATWG HTML Standard). |
| RuntimeCache.NextKeepsInvariant | app/agent/runtime.py:365-433 | Every atomic part of every concurrent load, down to the look at one file, keeps: the cached configuration is, file by file, no older than the observation of its cached signature. |
| RuntimeCache.RunKeepsInvariant | app/agent/runtime.py:365-433 | So does every interleaving with changes of the disk, invalidations and late writes of signatures. |
| RuntimeCache.LoadsAreFresh | app/agent/runtime.py:365-385 | If no file's entry repeats, every load returns for every file a version no older than the one its signature was built from. |
| RuntimeCache.LoadsAreRecent | app/agent/runtime.py:417-433 | No load returns a version that was superseded a second before it began, nor, if it scanned itself, one that was superseded before it began. |
| RuntimeCache.RepeatedSignatureIsStale | app/agent/runtime.py:372-373 | Any two versions of any file with one entry give a run whose second load returns the first version. |
| RuntimeCache.FreshnessCondition | app/agent/runtime.py:365-433 | Loads are fresh in every run if and only if no file ever returns to an earlier entry. |
| RuntimeCache.CacheIsUsedExactly | app/agent/runtime.py:365-433 | A load scans exactly if there is no observation of the last second, and reads exactly if no configuration is cached or an entry differs. |
| RuntimeCache.AgentRuntimeManager.CurrentSignature | app/agent/runtime.py:417-433 | The last observation within the throttle, a new one otherwise, and the fields that go with it. |
| RuntimeCache.AgentRuntimeManager.LoadRuntimeConfig | app/agent/runtime.py:365-385 | The configuration is the cached one exactly if every entry is as in the cached signature, else what is read now; it is no older than this call's own observation, or than the throttled one it used. |
| RuntimeCache.AgentRuntimeManager.InvalidateCache | app/agent/runtime.py:387-396 | An invalidated cache promises nothing and is valid for any disk. |
| TaskRuns.TransactionKeeps | app/db/models/agenttaskrun.py:55-271 | Every transaction (claim, finish, interruption, edit, deletion) keeps: a running run is the one its task's row shows, unchanged since the claim. |
| TaskRuns.RunsEndOnce | app/db/models/agenttaskrun.py:55-271 | After any transactions in any order no task has two running runs, and a run that was ever begun is running or has ended once. |
| TaskRuns.ForeignersTrack | app/db/models/agenttaskrun.py:126-271 | Whatever others do, a run is left running or interrupted, and stays as it ended until it is deleted. |
| TaskRuns.FinishedRows | app/db/models/agenttaskrun.py:126-192 | A finalisation makes a running run a success or a failure as it was told, its task's row shows the same and is disabled exactly if the run was due once; a run that is not running and all other rows stay. |
| TaskRuns.BegunRows | app/db/models/agenttaskrun.py:55-124 | A claim succeeds exactly on an enabled row that is not running; the run keeps the row's trigger, the row shows the run, all else stays. |
| TaskRuns.InterruptedRows | app/db/models/agenttaskrun.py:195-244 | An interruption ends exactly the running run of its task, and the row shows it. |
| TaskRuns.DeletedRows | app/db/models/agenttaskrun.py:246-272 | A deletion takes an idle task with exactly its own runs. |
| TaskRuns.EnabledChangesExactly | app/db/models/agenttaskrun.py:175-181 | Whether a task is enabled changes exactly by the end of a run that was due once, and by an edit while it is idle. |
| TaskRuns.DisabledExactly | app/db/oper/agenttask.py:286-341 | A finalisation reports exactly when it ended the run, and when it disabled the task's row, which is when that run was due once. |
| TaskExecution.TaskDatabase.BeginRun | app/db/models/agenttaskrun.py:55-124 | The conditional update and the insert are the modelled claim; a claimed task admits no other. |
| TaskExecution.TaskDatabase.FinishRun | app/db/models/agenttaskrun.py:126-192 | Only a running run is finalised, its row is updated if it is the latest, and a one-shot task with the same date is disabled; the outcome is read back from the rows. |
| TaskExecution.AgentTaskExecutionService.Finalize | app/application/agenttask.py:500-555 | The terminal transaction returns before a cancellation is let out, whenever it came; the schedule is removed once, and iff this outcome disabled the task; others may act at every await. |
| TaskExecution.AgentTaskExecutionService.Claim | app/application/agenttask.py:405-474 | A claim is refused iff the row does not admit it, with the matching reason; a cancelled claim leaves no run that it does not finalise as failed first. |
| TaskExecution.ExecuteScheduledTask | app/agent/tasks.py:80-172 | With others acting at every await, a run that is created has ended afterwards, by this finalisation or an interruption before it, and as a success only for an accepted result; otherwise only others changed anything. |
| UsageAccounting.SessionUsage.NextRequestSequence | app/agent/orchestrator.py:816-821 | Sequences are handed out increasing by one. |
| UsageAccounting.SessionUsage.RecordRequestBudget | app/agent/orchestrator.py:944-990 | Refines the accounting of a budget: stale and malformed ones change nothing, others replace estimate, model snapshot and calibration. |
| UsageAccounting.SessionUsage.RecordUsage | app/agent/orchestrator.py:829-942 | Refines the accounting of a usage, with its missing budget, its totals and its request. |
| UsageAccounting.SessionUsage.RecordReviewUsage | app/agent/orchestrator.py:823-827 | Refines the accounting of a review's usage. |
| UsageAccounting.TotalsAreSums | app/agent/orchestrator.py:836-906 | After any conversation the totals are the sum of what every usage cost. |
| UsageAccounting.CostOfNumbers | app/agent/orchestrator.py:878-906 | Each number that a usage reports is booked under its own name: input, output, reads and writes as reported or 0, the total as reported or as their sum, uncached input as reported or as what is left of the input. |
| UsageAccounting.EachTotalIsItsSum | app/agent/orchestrator.py:878-906 | Over every conversation each stored total is the sum of the numbers reported under its name. |
| UsageAccounting.TotalsIgnoreOrder | app/agent/orchestrator.py:836-906 | Conversations with the same multiset of usages have the same totals, whatever the order and the budgets in between. |
| UsageAccounting.SequenceIsLatest | app/agent/orchestrator.py:950-956 | The stored sequence is the highest request ever announced, however the announcements were ordered. |
| UsageAccounting.LatestIsHighest | app/agent/orchestrator.py:950-956 | That highest request is at least every announced one, and is one of them or 0. |
| UsageAccounting.SequenceNeverDecreases | app/agent/orchestrator.py:954-956 | The stored sequence never decreases. |
| UsageAccounting.FreshBudgetIsRecorded | app/agent/orchestrator.py:816-821 | A budget for a request newer than all announced ones is recorded and clears the calibration. |
| UsageAccounting.EstimateIsOfLatest | app/agent/orchestrator.py:957-978 | The stored estimate is that of the last announcement of the latest request. |
| UsageAccounting.NoEstimateWithoutBudget | app/agent/orchestrator.py:948-956 | If no event announced the latest request there is no estimate and no calibration, and the latest request is 0. |
| UsageAccounting.RecentIsLastOnTime | app/agent/orchestrator.py:917-927 | The stored usage is that of the last report which was about the latest request when it came. |
| UsageAccounting.RecentNumbers | app/agent/orchestrator.py:917-927 | Number by number it is what that report said, under the same names. |
| UsageAccounting.NothingOnTime | app/agent/orchestrator.py:852-878 | Without such a report no usage is stored. |
| UsageAccounting.IdentityIsOfLastReport | app/agent/orchestrator.py:979-987 | The stored model and window are those of the last report on the request that was the latest when it came; what that report leaves out stays as before it. |
| UsageAccounting.OneSourceExactly | app/agent/orchestrator.py:979-987 | The stored model and window come from one report if and only if the last report on time that stated a window named a model, or none stated one. |
| UsageAccounting.ModelsMayBeSpliced | app/agent/orchestrator.py:981-987 | A budget with an estimate and no model replaces the window under the earlier model's name. |
| UsageAccounting.UnnamedModelIsSpliced | app/agent/orchestrator.py:840-860 | The usage of a model without a name whose budget was not recorded states its window under the earlier model's name. |
| UsageAccounting.WhichCallsCount | app/agent/orchestrator.py:823-836 | A usage counts as a call unless it is empty; a review's counts even then. |
| UsageAccounting.StaleUsageOnlyCosts | app/agent/orchestrator.py:852-916 | A usage of a request before the latest announced one, or of one after it whose budget is not reported missing, changes the totals and nothing else. |
| UsageAccounting.ReviewOnlyCosts | app/agent/orchestrator.py:823-827 | A review's usage changes the totals and nothing else, whatever it reports. |
| UsageAccounting.CalibrationIsConsistent | app/agent/orchestrator.py:929-942 | A stored error is the stored actual input less the stored estimate, and the stored ratio times the actual input is that error. |
| UsageAccounting.CalibrationIsOfLastMatch | app/agent/orchestrator.py:929-942 | The stored actual input, error and ratio measure the last usage on time that matched the estimate last announced for the latest request. |
| UsageAccounting.UncalibratedWithoutMatch | app/agent/orchestrator.py:988-990 | Without such a usage nothing is stored. |

## Left out

- Whatever the modelled components call: language models, LangGraph, middlewares, tools, chat persistence, FastAPI, notifications and metrics. Their outcomes are parameters.
- Real time: timeouts, throttles and idle periods are choices of the environment, except the one-second throttle of the configuration cache, which is a clock value.
- asyncio itself: the lifecycle lock is mutual exclusion, `Queue.get` loses nothing on cancellation, a database transaction that has started runs to completion.
- Liveness: that a wait ends, a worker is scheduled, or a queue with a dead worker gets a new one before the next submission. A stop whose caller is cancelled can leave an accepted entry in a mapped queue until then.
- Sessions.NextKeepsInvariant: the manager is modelled on values, one record for the whole state, because its steps belong to coroutines that interleave; the model does not capture aliasing between the dictionaries. A cleanup may return without having closed the registered inbox, since it closes the one its agent was configured with. Usage timestamps, memory and processing status are left out.
- Sessions.EverySteeredMessageHasOneFate: how many of the messages handed out at the end of a run are still notified is a parameter of that step (`Steering.Drain` decides it from the calls of the agent); what a run still takes from an unregistered inbox is not followed.
- Sessions.StoppedMeansFinished: a worker that ends with an ordinary exception counts as finished; the shutdown timeout may or may not fire for any worker.
- Sessions.SubmissionGoesToOnePlace: whether a message matches the active run's channel and identity is a parameter, and the images and files of a message are not modelled.
- GraphCache.RunKeepsInvariant: assumes of callers that nothing is registered in a scope after it was published or left, nor while its own close is in flight or done, and that only scopes being built are published. Without that no ownership discipline could hold, since registration does not check.
- GraphCache.AgentGraphCache.CloseRetired: objects are identified by their `id`, scopes are values under an identity, and dictionaries are visited in any order rather than in insertion order.
- Steering.ProcessMessage: the status callback is set, as the worker always does, and what it raises is swallowed, as in the source; the images and files of messages are not modelled.
- EnvFile.JsonRoundTrip: strings, null and booleans only; numbers, lists, dictionaries and `Path` values are not modelled. A lone surrogate escape counts as a failure to decode, because a Dafny string holds Unicode scalar values.
- EnvFile.WriteEnvValue: the creation of directories, the encoding of the file and the newline translation that Windows applies on writing are left out.
- ResourceFiles.SiteDirectory.ReplaceResourceFiles: every failure is an OSError, the only exception the code rolls back for; the temporary directory is in the model only as the staged and the moved files.
- ResourceFiles.FrontendDirectories.Publish: a backup whose removal fails halfway counts as left whole, and a previous frontend that is a dangling link counts as a directory.
- SchemaClosure.ReferencedModels: the sorted rendering of the collected names, and JSON values in a schema other than those the loops look at.
- ServerEvents.ParseSseTextResponse: `json.loads` is a parameter.
- ServerEvents.IterSseEvents: the transport that divides a stream into lines is not part of this model; the parsers agree for the lines that `splitlines` gives.
- RuntimeCache.AgentRuntimeManager.LoadRuntimeConfig: loading succeeds, from the root or from the bundled defaults; the layout of the directory and the contents of a configuration are left out.
- TaskExecution.TaskDatabase.FinishRun: result texts, counters and times of the rows, and the account that a run is bound to.
- TaskExecution.ExecuteScheduledTask: the check that the agent is enabled, the texts, and database errors other than an overloaded worker. Others neither begin nor finish this run, whose identity is generated for it.
- UsageAccounting.SessionUsage.RecordUsage: values arrive coerced to optional integers, the ratio is a real number and not a float, and `_sync_model_profile`, `get_session_status` and the time of the last update are left out.
- Identifier normalisation, transports and sessions of MCP servers, merge-by-name helpers, prompts of the installer, benchmarks and the other generators: single branches or wrappers around external systems.
