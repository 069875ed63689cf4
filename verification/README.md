# API Sentinel: verified model

The repository runs API test suites against a service, on one machine or on many workers that share a
Redis queue. This project models its core and proves what it promises.

**The lease queue.** `Redis.dfy` has the few commands the Lua scripts use; `Queue.dfy` the scripts and
client methods as functions on the seven keys of a run; `RunQueue.dfy` the same as an object updated in
place, proved equal to those functions. `Lifecycle.dfy` is the claim lifecycle of the architecture
document, one state per case and five arrows. `Refinement.dfy` and `Steps.dfy` prove that the keys always
hold exactly one lifecycle state per case and that every script call is a sequence of legal arrows.
`Runs.dfy`, `Refusal.dfy`, `Progress.dfy`, `Idle.dfy` and `Deliveries.dfy` are theorems on whole runs: any
interleaving of calls by any number of clients, with any clock readings. A non-decreasing server clock
(`Clock`) and tokens that are never reused (`FreshTokens`) are assumed only where a row needs them:
fencing of completions and renewals, partition and permanence of results need no clock, and tokens only to
tell two holders apart.

**Its clients.** `Executor.dfy` runs one case; its readings of the outside world (answers, clock, lost flag)
are numbered, and an execution on record says which step ran when and which requests are its own.
`Worker.dfy` has the heartbeat and the consume loop, `Coordinator.dfy` collects, closes and fills in the
report. The calls of all other clients come in between any two commands. `EndToEnd.dfy` goes from exit code
0 back to the requests that were answered; `ReusedRun.dfy` shows what the reuse of a run id can do to a
report.

**The contract resolver.** `Pointer.dfy` against RFC 6901, `References.dfy` for `$ref` chains,
`Percent.dfy` and `PathTemplate.dfy` for paths, `Render.dfy` for templates, `Preflight.dfy` for the check
that is to make later lookups succeed.

**The demo order store.** `OrderStore.dfy`: three tables in place, and what holds over every history.

A property of the code that needs a condition is stated with it: the preflight guarantee holds after
rendering exactly when the step would have passed under its rendered operation name, and an operation name
with a placeholder can break it. The path can depend on the order of the path parameters exactly when one
placeholder ends with another. A report has exactly one entry per case if and only if the last read found
results of the suite's cases only, which holds unless its run id is used for another run before that read.

Where documentation and code differ, the code is modelled. The document calls the attempts counter the
delivery count of a case; on exhaustion the code counts one further, undelivered attempt. It says that
results hold accepted results; exhaustion errors are written there as well. A step that is rejected before
anything is sent is reported with one attempt.

Two workers may send requests for one case at the same time, because a lost lease is noticed late; nothing
here claims otherwise. What is excluded is a second accepted result.

## Model

| member | source | states |
|---|---|---|
| `Redis.First` | src/api_sentinel/queue.py:61 | ZPOPMIN takes the one member that comes before all others in (score, id) order |
| `Redis.FirstMeans` | src/api_sentinel/queue.py:61 | every other member has a higher score, or the same score and is later in the order of strings: by the first differing character, or as a proper extension |
| `Redis.DueMembers` | src/api_sentinel/queue.py:54 | the reclaim range holds at most 100 distinct members, all of them due |
| `Redis.DueOrdered` | src/api_sentinel/queue.py:54 | the reclaim range is in (score, id) order |
| `Redis.DueMisses` | src/api_sentinel/queue.py:54 | a due lease is left out of the range only when the range is full |
| `Lifecycle.FinishedStays` | docs/ARCHITECTURE.md:27-37 | along legal arrows no terminal result changes and no case is added or lost |
| `Lifecycle.LostStays` | docs/ARCHITECTURE.md:27-37 | a token without a live lease does not get one back unless it is granted anew |
| `Lifecycle.LeaseOrigin` | docs/ARCHITECTURE.md:27-37 | a lease that was not granted was there before, with the same token and count |
| `Lifecycle.FinishesCount` | docs/ARCHITECTURE.md:27-37 | acceptances and exhaustions finish exactly one more case each, no other arrow does |
| `Lifecycle.FinishSource` | docs/ARCHITECTURE.md:27-37 | a case that becomes finished does so by an acceptance or exhaustion with exactly that result |
| `Lifecycle.MeasureFalls` | docs/ARCHITECTURE.md:27-37 | every grant, acceptance and exhaustion lowers the sum of deliveries + 1 - attempts; no arrow raises it |
| `Lifecycle.MeasureZero` | docs/ARCHITECTURE.md:27-37 | that sum is zero exactly when every case has its result |
| `Refinement.CreateRefines` | src/api_sentinel/queue.py:33-48 | CREATE on absent keys leaves every suite case waiting with no delivery, in suite order, with the plan and one expiry on all keys |
| `Refinement.ReclaimOneStep` | src/api_sentinel/queue.py:55-59 | taking one due lease back is the arrow Leased to Ready and keeps the joint invariant of the seven keys |
| `Refinement.ReclaimRefines` | src/api_sentinel/queue.py:54-59 | the whole reclaim batch is a sequence of such arrows; no other case changes |
| `Refinement.ExhaustOneStep` | src/api_sentinel/queue.py:61-67 | the write to results without existence check is safe: the popped case had no result; its error carries the full delivery count |
| `Refinement.GrantOneStep` | src/api_sentinel/queue.py:61-72 | handing out a popped case is the arrow Ready to Leased with the new token and one more delivery |
| `Refinement.FirstTimeInOrder` | src/api_sentinel/queue.py:41-44 | a first ready case that was never delivered comes right after the delivered ones, and nothing delivered before is ready |
| `Refinement.PopRefines` | src/api_sentinel/queue.py:60-76 | the pop loop is a sequence of exhaustion arrows followed by at most one grant; without a grant ready is empty or the rounds are used up |
| `Refinement.ClaimRefines` | src/api_sentinel/queue.py:50-78 | every active CLAIM is a finite sequence of legal arrows of the documented machine and keeps the joint invariant |
| `Refinement.HoldsIsLive` | src/api_sentinel/queue.py:83-85 | the three separate checks of RENEW and COMPLETE hold exactly when the run is active and the token owns a live lease; then the case has no result |
| `Refinement.RenewRefines` | src/api_sentinel/queue.py:80-90 | RENEW accepts exactly live tokens, is then one arrow, and changes nothing otherwise |
| `Refinement.CompleteRefines` | src/api_sentinel/queue.py:92-105 | COMPLETE accepts exactly live tokens, is then the one accepting arrow, and changes nothing otherwise |
| `Refinement.CloseKeeps` | src/api_sentinel/queue.py:107-111 | CLOSE changes no case and no expiry |
| `Steps.SeenAllOrNothing` | src/api_sentinel/queue.py:21-26 | all keys expire at one instant: a call sees either everything or nothing |
| `Steps.CallAdvances` | src/api_sentinel/queue.py:50-111 | every call on an existing run keeps invariant and plan, follows legal arrows, grants at most one lease, and replies exactly as the machine says |
| `Steps.CallOnNothing` | src/api_sentinel/queue.py:148-180 | on a missing run only a creation changes anything, and it starts with no lease and no result |
| `Steps.CallKeepsInv` | src/api_sentinel/queue.py:33-111 | partition of the tasks into ready, leases and results, owners keyed like leases, prefix order and common expiry hold after every call |
| `Runs.InvAlways` | src/api_sentinel/queue.py:33-111 | that invariant holds in every reachable state of any interleaving of calls |
| `Runs.KeysExpireTogether` | src/api_sentinel/queue.py:21-26 | in every reachable state no key exists without meta, and every existing key carries exactly the expiry fixed at creation |
| `Runs.CreateStartsClean` | src/api_sentinel/queue.py:158-180 | a creation succeeds exactly when timeout, retention and deliveries are positive, every case is marked replay_safe, the payload is at most 10 MB and meta is gone, and then all seven keys are gone; otherwise it changes nothing and is invalid or finds the run, as the settings are wrong or not |
| `Runs.CreatedPlan` | src/api_sentinel/queue.py:38-40 | a created run is open for its timeout in whole milliseconds, rounded down, and kept for the retention in seconds after that, with the given suite and delivery limit |
| `Runs.HandedOutIsReplaySafe` | src/api_sentinel/queue.py:160-161 | over all runs, only cases marked replay_safe are ever handed out |
| `Runs.PlanIsFixed` | src/api_sentinel/queue.py:38-40 | suite, deadline, expiry and delivery limit never change while the run lasts; no worker activity extends it |
| `Runs.PlanOrGone` | src/api_sentinel/queue.py:36-40 | until another creation succeeds, a run keeps its plan or is gone, deleted or expired |
| `Runs.ResultsArePermanent` | docs/ARCHITECTURE.md:39 | a recorded result is never overwritten or removed while the run lasts, whatever is called |
| `Runs.OneOutcome` | src/api_sentinel/queue.py:92-105 | a case with a result is never handed out again and no further completion of it is accepted |
| `Runs.LeaseOriginOnce` | src/api_sentinel/queue.py:50-105 | a lease left by a call is the one it granted or was there with the same owner and count |
| `Runs.OwnerIsLastGrant` | src/api_sentinel/queue.py:69-72 | the owner of a lease is the token of the last call that handed the case out, and the counter is the delivery it returned |
| `Runs.AcceptedIsFenced` | docs/ARCHITECTURE.md:39 | an accepted completion carries the token of the most recent hand-out of its case, with a live lease on an active run, and writes exactly its result where there was none |
| `Refusal.LostStaysLost` | src/api_sentinel/queue.py:80-105 | under a clock that does not go back no call makes a lost token usable again except a claim with that token |
| `Refusal.AcceptsUsable` | src/api_sentinel/queue.py:80-105 | RENEW and COMPLETE accept exactly the usable tokens |
| `Refusal.RefusalIsPermanent` | src/api_sentinel/queue.py:80-105 | once an issued token is refused it is refused for ever, across deletion, expiry and reuse of the run id |
| `Refusal.LeaseAfterGrant` | src/api_sentinel/queue.py:69-72 | right after a hand-out the case is leased to the caller with the delivery it was told, between 1 and the limit |
| `Refusal.AcceptedIsLastHolder` | src/api_sentinel/queue.py:83-84 | a renewal or completion is accepted only from the last one the case was handed out to, whatever the clock does |
| `Refusal.OlderHolderIsFenced` | docs/ARCHITECTURE.md:39 | a later hand-out of the same case fences every earlier holder off for good, whatever the clock does |
| `Progress.MeasureFalls` | src/api_sentinel/queue.py:60-76 | no call raises the measure; each hand-out and each recorded result lowers it by at least one |
| `Progress.MeasureZero` | src/api_sentinel/queue.py:60-76 | the measure is never negative and is zero exactly when all cases have results |
| `Progress.AcceptRecords` | src/api_sentinel/queue.py:98-103 | an accepted completion adds exactly one result, its own |
| `Progress.JobsAreBounded` | src/api_sentinel/queue.py:64-72 | between two creations at most total * deliveries jobs are handed out |
| `Progress.DeliveredPrefix` | src/api_sentinel/queue.py:41-44 | the delivered cases are a prefix of the suite, and a ready case has score 0 exactly when it was delivered before |
| `Progress.FirstTimeComesLast` | docs/ARCHITECTURE.md:17 | a case is handed out for the first time only when no reclaimed case is left in ready; delivery numbers lie between 1 and the limit |
| `Idle.NilClaim` | src/api_sentinel/queue.py:53-76 | a nil CLAIM on an active run leaves ready empty or has recorded exactly 100 exhaustions, and at least one if anything was ready or due |
| `Idle.Partition` | src/api_sentinel/queue.py:33-105 | ready, leases and results partition the tasks; owners has exactly the keys of leases |
| `Idle.CountMeansAllDone` | src/api_sentinel/queue.py:211-212 | the count reaches the number of cases exactly when all have results, and exactly when ready and leases are empty |
| `Idle.IsOpenIsActive` | src/api_sentinel/queue.py:186-189 | the fractional comparison of is_open agrees with the floored one of the scripts at the same state and instant |
| `Deliveries.AttemptsGrow` | src/api_sentinel/queue.py:64 | attempt counters never go down during a run, and a hand-out carries a number above the old counter |
| `Deliveries.DeliveriesDiffer` | src/api_sentinel/queue.py:64-72 | no two hand-outs of a run share case and delivery |
| `Deliveries.AcceptedCarriesCounter` | src/api_sentinel/queue.py:64-72 | an accepted result with the delivery of the hand-out to its token carries the attempt counter of its case |
| `Deliveries.ResultSource` | src/api_sentinel/queue.py:65-67 | every result in the queue is the one an accepted completion offered, except the queue's own error for a case it gave up, spelled out |
| `Deliveries.PreimageInjective` | src/api_sentinel/executor.py:56 | run:case:delivery determines run, case and delivery, because ids contain no colon |
| `RunQueues.RunQueue.RunCreate` | src/api_sentinel/queue.py:33-48 | the creating loop over the cases, in place, is the specified creation |
| `RunQueues.RunQueue.RunClaim` | src/api_sentinel/queue.py:50-78 | CLAIM in place is the specified claim |
| `RunQueues.RunQueue.ReclaimAll` | src/api_sentinel/queue.py:55-59 | the reclaim loop in place |
| `RunQueues.RunQueue.PopFirst` | src/api_sentinel/queue.py:61-64 | ZPOPMIN and HINCRBY in place |
| `RunQueues.RunQueue.PopUpTo` | src/api_sentinel/queue.py:60-76 | the bounded pop loop in place |
| `RunQueues.RunQueue.RunRenew` | src/api_sentinel/queue.py:80-90 | RENEW in place |
| `RunQueues.RunQueue.RunComplete` | src/api_sentinel/queue.py:92-105 | COMPLETE in place |
| `RunQueues.RunQueue.TouchKeys` | src/api_sentinel/queue.py:21-26 | the expiry of all keys is reset to the one fixed at creation |
| `RunQueues.RunQueue.Do` | src/api_sentinel/queue.py:148-219 | every client method leaves the keys that the run theorems speak about and returns their reply |
| `Executor.CheckLease` | src/api_sentinel/executor.py:114-115 | the lease check reads the lost flag and is recorded |
| `Executor.ReadBody` | src/api_sentinel/executor.py:135-146 | the body is kept exactly when every chunk arrived within size cap, deadline and lease; never more than the cap is retained |
| `Executor.TrySend` | src/api_sentinel/executor.py:114-149 | one turn sends at most once, after a lease and a deadline check with nothing in between, and ends exactly as the world's answers decide |
| `Executor.RunStep` | src/api_sentinel/executor.py:95-188 | retries follow connection errors only; the last try decides status, HTTP status and end of the step; its part of the log shows exactly the reported requests, one method, at most connect_retries + 1 for GET/HEAD/OPTIONS and one otherwise, each checked against the deadline; the loop ends |
| `Executor.WritesAreSentOnce` | src/api_sentinel/executor.py:150-153 | a step with another method than GET, HEAD or OPTIONS sends at most one request, and reports an error when its connection is refused |
| `Executor.ReadsAreSentAgain` | src/api_sentinel/executor.py:150-153 | with GET, HEAD and OPTIONS a try is followed by another exactly when its connection was refused and fewer than connect_retries + 1 requests were sent |
| `Executor.StatusExactly` | src/api_sentinel/executor.py:155-188 | a step passes exactly when its last try got a whole response without contract failures within the latency budget, and fails exactly when it got a whole response that did not meet contract or budget; everything else is an error; which HTTP status is reported |
| `Executor.NothingToSend` | src/api_sentinel/executor.py:107-112 | a step with contract violations in its request is reported failed without sending anything, one that cannot be prepared is an error |
| `Executor.LossStopsSteps` | src/api_sentinel/executor.py:114-115 | a step that begins after the lease was lost sends nothing and does not pass |
| `Executor.RunPhase` | src/api_sentinel/executor.py:66-73 | a phase stops after its first step that does not pass, under the case deadline |
| `Executor.RunTeardown` | src/api_sentinel/executor.py:74-80 | every teardown step is carried out, one after the other, under the cleanup deadline |
| `Executor.RunCase` | src/api_sentinel/executor.py:47-93 | the results are a prefix of setup and steps in which only the last may not have passed, then all teardown steps, each with its own span of time and part of the log; main steps run against the case deadline, the others against the cleanup deadline counted from when the cleanup began; the status is the most severe; no send after a seen loss, no body beyond the cap |
| `Executor.StepsInOrder` | src/api_sentinel/executor.py:66-80 | steps run strictly one after the other, and so do their requests |
| `Executor.CaseStatus` | src/api_sentinel/executor.py:81-85 | a case is an error exactly when some step is, and failed exactly when some step is and none is an error |
| `Executor.PassedMeansAllRan` | src/api_sentinel/executor.py:81-85 | a case passes exactly when every setup, test and teardown step ran in order and passed; no test step runs unless setup passed |
| `Executor.RetriesOfCase` | src/api_sentinel/executor.py:150-153 | the retry rule holds in every step of an executed case |
| `Executor.DeadlinesOfCase` | src/api_sentinel/executor.py:64-76 | main steps are checked against the case timeout from the beginning; teardown steps against the shorter of the case timeout and 15 seconds from the beginning of the cleanup |
| `Executor.PassedMeansAnswered` | src/api_sentinel/executor.py:161-174 | a passed step got, while it ran and after a request of its own sent under lease and deadline, a whole response within the cap, without contract failures and within the latency budget, whose status is reported |
| `Executor.ReportIsDecided` | src/api_sentinel/executor.py:47-93 | options and readings alone decide the reported steps and status of a case |
| `Workers.Worker.BeatOne` | src/api_sentinel/worker.py:47-54 | a renewal that is refused or fails marks the job lost, a failure also stops the worker with its error; no other job is touched and a mark is never cleared |
| `Workers.Worker.Snapshot` | src/api_sentinel/worker.py:45-46 | the jobs of a round are exactly the active ones, each once |
| `Workers.Worker.Heartbeat` | src/api_sentinel/worker.py:43-55 | after a round every active job that is not marked lost was renewed in it, and every new mark comes from a refused or failed renewal; stop and error are set exactly when some renewal failed |
| `Workers.Worker.CheckDone` | src/api_sentinel/worker.py:61-65 | after the claim the thread goes on only if the count it then read was short and the run it read after that open, with no read failing; it ends with an error only when a read it came to failed, otherwise with the reason it read |
| `Workers.Worker.Offer` | src/api_sentinel/worker.py:84 | the completion sent offers what executing the claimed case gave, with its delivery; the execution is put on record |
| `Workers.Worker.BeatAll` | src/api_sentinel/worker.py:47-54 | the lost flag of a job is set exactly from its first renewal that is refused or fails; stop and error exactly when one failed |
| `Workers.Worker.Work` | src/api_sentinel/worker.py:66-83 | the case is executed under the readings of the turn with that flag as its lease check |
| `Workers.Worker.Serve` | src/api_sentinel/worker.py:66-95 | a claimed job is executed so, offered under its own token with the execution on record, and forgotten, also on errors |
| `Workers.Worker.OneTurn` | src/api_sentinel/worker.py:59-105 | a turn goes on only after a claim of its own without fault, which got nothing, after which the count was short and the run open, or which got a case that was completed with an execution under the readings of the turn and the flag its renewals left; a failing command ends it with stop and error |
| `Workers.Worker.Consume` | src/api_sentinel/worker.py:57-105 | the thread stops before a turn exactly when it was stopped from outside or a renewal of the turn before failed; every turn before was gone through so; it ends with an error only at a turn of which a command failed, and without stop or error only when a claim of its last turn got nothing and after it the count was full or the run seen not open |
| `Workers.FinishedLater` | src/api_sentinel/worker.py:58-65 | how a thread ended stays on record in every longer log |
| `Workers.CompletionIsGenuine` | src/api_sentinel/worker.py:77-84 | such a completion names a hand-out of its case to its token, the delivery it returned and the recorded execution of the case it returned |
| `WorkerFacts.CountedMeansDone` | src/api_sentinel/worker.py:62-63 | ending by the count means that every case has a terminal result and nothing is ready or leased |
| `WorkerFacts.ClosedMeansInactive` | src/api_sentinel/worker.py:62-63 | a run seen not open is refused by the scripts in that state then and later |
| `WorkerFacts.NothingLeftToDo` | src/api_sentinel/worker.py:58-65 | after a thread ended so, and unless the run is created again, no call in any longer log gets a case or has a renewal or completion accepted |
| `WorkerFacts.WorkerResultCarriesCounter` | src/api_sentinel/worker.py:77-84 | an accepted completion of a worker carries the attempt counter of its case |
| `WorkerFacts.LostLeaseStopsSending` | docs/ARCHITECTURE.md:49 | in the execution on record for a turn, once a renewal of its job was refused or failed, no step of the case that begins later sends anything or passes |
| `WorkerFacts.RefusedBeatIsFinal` | src/api_sentinel/worker.py:49-50 | a job given up after a refused renewal could not have been completed any more |
| `Coordinator.HVals` | src/api_sentinel/queue.py:208-209 | reading the results lists every result exactly once, in any order |
| `Coordinator.SeesOpen` | src/api_sentinel/queue.py:186-189 | is_open reads the state and then the clock, with other calls in between |
| `Coordinator.TimeLeft` | src/api_sentinel/coordinator.py:36 | after a short read the collection goes on only if neither the deadline is reached nor a read fails and the run is open; otherwise the error names the reason |
| `Coordinator.OneTurn` | src/api_sentinel/coordinator.py:33-41 | a turn keeps the old results only when the read fails; it goes on exactly after a short read with the run open, and ends without error exactly when all results were read |
| `Coordinator.Collect` | src/api_sentinel/coordinator.py:31-41 | at every turn but the last the results read were short and the run read after them was open; there is no error exactly when all results are there, otherwise the last turn has its reason: Redis failed, time is up or the run was seen not open after its read and before the collection ended; what was read last is kept |
| `Coordinator.FillIn` | src/api_sentinel/coordinator.py:47-57 | one error entry with the given message is appended for every case without a result and none other |
| `Coordinator.CloseAndReport` | src/api_sentinel/coordinator.py:42-66 | after the collection the run is closed once; a failed close is the error of the report, otherwise the error of the collection is |
| `Coordinator.DistributedRun` | src/api_sentinel/coordinator.py:11-66 | the report is what was last read plus one coordinator error per missing case; it exists exactly when the run was created and the collection ended; its error is that of a failed close, else none exactly when all results were read, else the reason for which the last turn ended the collection, before the close; the exit code follows |
| `Coordinator.ReadIsRecorded` | src/api_sentinel/coordinator.py:33 | collected entries are recorded results of the queue, each once |
| `Coordinator.EntriesRecorded` | src/api_sentinel/coordinator.py:47-66 | every entry is a recorded result or stands for a missing case |
| `Coordinator.MissingMeansUnread` | src/api_sentinel/coordinator.py:47-57 | a missing entry is reported only for a case whose result was not there at the last read |
| `Coordinator.ExitZeroMeansAllAccepted` | src/api_sentinel/models.py:79-85 | exit code 0 implies that for every case a completion with a passed result was accepted and is the entry reported |
| `Models.RunReport.ExitCode` | src/api_sentinel/models.py:79-85 | code 2 exactly for an error message, a wrong number of entries or an entry that is an error; code 1 exactly when none of these holds and some entry is failed |
| `Coordinator.ExitCodeExactly` | src/api_sentinel/models.py:79-85 | the code of a collected report by what was read: 2 when collection or close failed, a foreign result was read or some result is an error, else 1 when some result is failed, else 0 |
| `Coordinator.AcceptedIsReported` | src/api_sentinel/coordinator.py:33 | a result accepted before the last read is the entry reported, while the run is neither deleted nor expired |
| `Coordinator.OneEachExactly` | src/api_sentinel/coordinator.py:29-66 | exact condition, whatever fails: the report has exactly one entry per suite case and no other if and only if the last read found results of suite cases only |
| `Coordinator.ExactlyOneEach` | src/api_sentinel/coordinator.py:29-66 | so it has, even when the run is deleted or expires meanwhile, as long as its id is not used for another run before the last read |
| `ReusedRuns.ReusedRunBreaks` | src/api_sentinel/coordinator.py:29-66 | a log with such a reuse, without that condition: the report holds a case of the other suite and more entries than cases |
| `EndToEnd.LeaseSince` | src/api_sentinel/queue.py:69-72 | a case leased now but not at an earlier moment was handed out since |
| `EndToEnd.HandsOutSuiteCase` | src/api_sentinel/queue.py:72 | what a run hands out is the case of its suite |
| `EndToEnd.AcceptedWasExecuted` | src/api_sentinel/worker.py:77-84 | an accepted completion in a run offers the outcome of the recorded execution of the case of this very suite, handed out in this run |
| `EndToEnd.PassedComplied` | src/api_sentinel/executor.py:81-93 | a passed execution carried out every setup, test and teardown step, in order, each with requests of its own and an answer while it ran |
| `EndToEnd.AllOnRecord` | src/api_sentinel/worker.py:77-84 | when every completion of a run was sent by one of its workers, what the workers keep puts all completions on record |
| `EndToEnd.ExitZeroMeansEverythingPassed` | src/api_sentinel/coordinator.py:58-66 | exit code 0 means that behind the entry of every suite case stands an accepted completion and its recorded execution, in which every step was carried out, in order, and passed on an answer of its own |
| `Pointers.EvalPointer` | src/api_sentinel/contracts.py:23-37 | the loop evaluates the token sequence, with its errors |
| `Pointers.UnescapeEscape` | src/api_sentinel/contracts.py:30 | the two successive whole-string replacements invert the escaping of section 3 of RFC 6901 for every key |
| `Pointers.OrderMatters` | src/api_sentinel/contracts.py:30 | in the other order they would not |
| `Pointers.PointerFindsNode` | src/api_sentinel/contracts.py:23-37 | for every document and every existing path, evaluating the standard's encoding of the path returns exactly that node |
| `Pointers.PointerReachesNode` | src/api_sentinel/contracts.py:23-37 | conversely, whatever a pointer evaluates to is the node at the path of its unescaped tokens |
| `Pointers.BadTokenRejected` | src/api_sentinel/contracts.py:29-36 | the first token that leads nowhere decides the error, anywhere in a pointer: a non-canonical index is always rejected, then index errors, missing keys and scalars |
| `References.InspectMeans` | src/api_sentinel/contracts.py:76-95 | the inspection passes exactly when no member at any depth has one of the three refused keys, and every $ref is a local pointer that evaluates |
| `References.TargetInside` | src/api_sentinel/contracts.py:86-89 | every target of a pointer is part of the document: its references are the document's and inspection covers it |
| `References.RefFindsNode` | src/api_sentinel/contracts.py:104 | a $ref written as the standard encodes a path leads to exactly that node |
| `References.Deref` | src/api_sentinel/contracts.py:97-105 | the loop follows the chain with its set of visited references |
| `References.DerefMeaning` | src/api_sentinel/contracts.py:97-105 | in an inspected document with object targets every hop resolves, deref stops within the number of distinct $ref strings, and raises the cyclic error exactly when the chain never ends |
| `Percent.QuoteRoundTrip` | src/api_sentinel/contracts.py:168 | percent-decoding a quoted value gives back its octets and its text (section 2.1 of RFC 3986) |
| `Percent.QuoteInjective` | src/api_sentinel/contracts.py:168 | different values are quoted differently |
| `Percent.QuoteChars` | src/api_sentinel/contracts.py:168 | a quoted value contains only unreserved characters and '%' |
| `Percent.OctetQuoted` | src/api_sentinel/contracts.py:168 | an octet is kept exactly when it is a letter, digit, underscore, dot, hyphen or tilde, and otherwise written with two upper-case hexadecimal digits |
| `Percent.QuotePlain` | src/api_sentinel/contracts.py:168 | a text of such characters is its own quote |
| `PathTemplates.EveryTemplateHasReading` | src/api_sentinel/contracts.py:130 | every template consists of placeholders and literal text in which none starts |
| `PathTemplates.ScanYieldsNames` | src/api_sentinel/contracts.py:130 | the scan of a template yields its placeholder names in order |
| `PathTemplates.SubstitutePath` | src/api_sentinel/contracts.py:166-171 | the loop over the parameters, in dictionary order, refuses exactly the values . and .. themselves |
| `PathTemplates.DotSegmentExactly` | src/api_sentinel/contracts.py:167-170 | for every template the substitution fails exactly when some value is . or .. |
| `PathTemplates.ReplaceFills` | src/api_sentinel/contracts.py:171 | replacing one braced name fills exactly the placeholders of that name, unless another placeholder ends with it |
| `PathTemplates.ReplaceFillsExactly` | src/api_sentinel/contracts.py:171 | exact condition: it does so if and only if no placeholder ends with the placeholder of that name |
| `PathTemplates.NestedNamesClash` | src/api_sentinel/contracts.py:166-171 | a template and two orders of its parameters that give different paths |
| `PathTemplates.InnerFirstFails` | src/api_sentinel/contracts.py:171 | for all texts: replacing a name and then one that ends with its placeholder never gives the filled template |
| `PathTemplates.SequentialIsSimultaneous` | src/api_sentinel/contracts.py:166-171 | without such nesting, replacing one parameter after the other, in any order, equals filling all at once; it fails exactly on a dot segment |
| `PathTemplates.SomeOrderFills` | src/api_sentinel/contracts.py:166-171 | whatever the names, some order of the parameters fills the template |
| `PathTemplates.AnyOrderExactly` | src/api_sentinel/contracts.py:166-171 | exact condition, for every template and all values without dot segments: all orders fill the template if and only if no placeholder ends with another |
| `PathTemplates.OrderMattersExactly` | src/api_sentinel/contracts.py:166-171 | the same condition decides whether the path depends on the order at all |
| `PathTemplates.FilledPath` | src/api_sentinel/contracts.py:166-172 | the path keeps its literal text and number of '/' and the scan finds no placeholder left |
| `PathTemplates.RequestPath` | src/api_sentinel/contracts.py:166-172 | all of this for every template without nested names and parameters that passed the preflight, with decoding |
| `Rendering.RenderKeepsShape` | src/api_sentinel/config.py:57-66 | rendering keeps structure and keys of every value except at whole-string placeholders |
| `Rendering.RenderFails` | src/api_sentinel/config.py:46-66 | rendering fails exactly when some placeholder in the value cannot be resolved, and leaves a value without placeholders as it is |
| `Rendering.EveryTextIsReadable` | src/api_sentinel/config.py:14 | every text consists of placeholders and of literal text in which no placeholder starts |
| `Rendering.TemplateFills` | src/api_sentinel/config.py:61 | every text keeps its literal pieces and gets the spelled values in place of its placeholders, in order and not scanned again |
| `Rendering.WholeIsTyped` | src/api_sentinel/config.py:58-60 | a whole-string placeholder becomes the value itself with its type |
| `Rendering.EnvironmentRenders` | src/api_sentinel/config.py:48-52 | an env placeholder becomes the text of that environment variable, alone or inside a text, and fails when it is missing |
| `Rendering.VariableRenders` | src/api_sentinel/config.py:53-61 | any other placeholder becomes the variable: alone with its type, inside a text spelled |
| `Rendering.NumberSpelled` | src/api_sentinel/config.py:61 | numbers are spelled in decimal, negative ones with a sign |
| `Preflight.MostSpecificFirst` | src/api_sentinel/contracts.py:189-191 | of the exact status, its hundreds range and default the most specific entry counts |
| `Preflight.NumeralMeans` | src/api_sentinel/contracts.py:190 | the key of a status is its three-digit numeral, and its first digit names the range |
| `Preflight.LoadedResponses` | src/api_sentinel/contracts.py:187-194 | in a loaded contract the only failures are an undeclared status and an endless reference chain; otherwise an object without $ref results |
| `Preflight.ValidateSuite` | src/api_sentinel/contracts.py:124-135 | the check accepts exactly when for every step the operation exists, the placeholder names equal the path parameters, the status has a definition and the assertion keys are pointers; otherwise it raises the fault that the first violated condition of the first such step names |
| `Preflight.DumpReads` | src/api_sentinel/executor.py:107 | validating a dumped step gives the step back exactly when it is valid |
| `Preflight.OnlyDumpsRead` | src/api_sentinel/executor.py:107 | conversely only dumps of valid steps are read, in which members with default values may be missing |
| `Preflight.RenderedKeeps` | src/api_sentinel/executor.py:107 | every part of the sent step is the rendering of the configured one; dictionary keys, expected status, latency bound and flag stay |
| `Preflight.CaseVariables` | src/api_sentinel/executor.py:57-62 | what each placeholder name renders to in a case: namespace, seed, case id, run id, environment, and nothing else |
| `Preflight.PlainStep` | src/api_sentinel/executor.py:107 | a valid step without placeholders is sent as configured |
| `Preflight.PreflightAfterRendering` | src/api_sentinel/executor.py:107-108 | exact condition: the rendered step passes the preflight exactly when the configured step would under its rendered operation name |
| `Preflight.PreflightIsSound` | src/api_sentinel/contracts.py:124-138 | after an accepted preflight, operation, parameters and response definition are found for every rendered step whose operation name has no placeholder |
| `Preflight.RequestAfterPreflight` | src/api_sentinel/contracts.py:166-172 | and for a template without nested names its path has no placeholder left unless a value renders to a dot segment |
| `Preflight.TemplatedOperationEscapes` | src/api_sentinel/contracts.py:127-128 | without that condition the guarantee fails in every case of every run: an accepted step named by the case id renders to an operation the loaded contract does not have |
| `OrderStore.Store.Seed` | examples/demo_api/app.py:92-111 | seeding in place: insert or ignore, refusal of another seed |
| `OrderStore.Store.Delete` | examples/demo_api/app.py:114-119 | deletion in place, cascading to products and orders |
| `OrderStore.Store.Place` | examples/demo_api/app.py:149-179 | placing an order in place: replay, conflict, missing product, confirmation |
| `OrderStore.InvAlways` | examples/demo_api/app.py:40-51 | over every history each namespace has exactly its seed's products, and every order belongs to a live namespace with total = current price times quantity |
| `OrderStore.Catalog` | examples/demo_api/app.py:106-110 | over every history a live namespace has exactly the products product-1 to product-3, named Phone, Tablet and Watch, priced by its seed; another has none |
| `OrderStore.SeedReplies` | examples/demo_api/app.py:99-111 | a seed that fits the column is accepted unless the namespace lives with another one; otherwise nothing changes |
| `OrderStore.RepeatIsIdentical` | examples/demo_api/app.py:155-161 | repeating an accepted order gets the identical response until the namespace is deleted; a differing body is refused and changes nothing |
| `OrderStore.OrderReplies` | examples/demo_api/app.py:149-179 | over every history, exactly when an order is invalid, in conflict, not found or confirmed, and the confirmed total |
| `OrderStore.ReseedChangesNothing` | examples/demo_api/app.py:100-110 | seeding a live namespace again changes nothing, with its own seed or another |
| `OrderStore.Isolation` | examples/demo_api/app.py:92-179 | the rows of a namespace and the replies it gets depend only on the calls made on it |
| `OrderStore.DeleteStartsAfresh` | examples/demo_api/app.py:114-119 | after a deletion the namespace is as if never used |

## Left out

- Workers.Worker.Heartbeat: does not model that other threads of the same worker add and remove active jobs during a round; their queue calls come in between, their changes of the table do not.
- Workers.Worker.Serve: of the heartbeats only the renewals of the job itself are followed while its case runs; those of other jobs come in as calls of others, and their effect on the stop flag as a stop from outside.
- WorkerFacts.LostLeaseStopsSending: is about steps that begin after the loss; a step already under way stops at its next lease check, and a request in flight is not recalled.
- EndToEnd.ExitZeroMeansEverythingPassed: assumes that the completions of the run come from workers as modelled (AllOnRecord puts them on record then); the queue itself accepts any result offered with a live token.
- Preflight.DumpReads: validation is strict in the types; the lax conversions of the library (a numeric string for a number, say) are not modelled, and no rendered status can meet them.
- References.DerefMeaning: is about documents whose reference targets are objects; a target of another kind makes the loop raise a type error, which the model of the loop contains.
- Models.IsSuite: the bounds on case ids and on the number of cases describe the suites the schema lets in; no operation of the model checks them.
- Timing: seconds are real numbers and lease times whole milliseconds; floating-point rounding of timeouts, sleeps, latency figures and elapsed times are not modelled.
- HTTP transport, JSON decoding of bodies and response comparison: a request ends in an answer of the outside world with its verdict; request checks are one such reading as well.
- JSON Schema validation, the schema check during inspection and the construction of the operation table: not modelled; the table is an input.
- SHA-256 and uuid4: namespaces are compared before hashing, tokens are fresh by assumption.
- Stored payloads: tasks and results hold values, not their JSON text; the payload size is an input of creation.
- Redis persistence, failover, command retries and errors of the creating call: one primary with atomic scripts; a failing command of a worker or of the coordinator may or may not have been executed.
- Exceptions that escape collection other than Redis errors: propagate in the code, are not part of the model.
- Python limits: digits accepted by int(), lone surrogates, recursion depth.
- Demo service: routing, tokens, listing and reading of products, creation times; prices are an arbitrary function of seed and position.
- Command line, configuration files, logging, reports on disk, signals and thread pools: plumbing.
