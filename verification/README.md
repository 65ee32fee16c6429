# ds-service: the scheduler, the client call and the named mutex, verified

This project models three parts of ds-service and proves what they promise.

**The task queue** (`cpp/server/core/task-manager.cpp`). The server keeps a column table, an
incremental dependency graph (a count of unfinished parents and lists of children) and one heap per
queue that deletes lazily. `TaskManager.dfy` models it method by method, as a class whose methods
update those fields in place. `Scheduler.dfy` is the same queue with none of that: one record per
task, from which readiness, dependents and the best task are recomputed at every step. Every method
is proved to take the state the class stands for to the abstract next state and to give the abstract
reply, so `Serve` answers every run of requests as the abstract queue does. What holds over whole
runs is then proved once, about the abstract queue:

| file | subject |
|---|---|
| `TaskTypes.dfy`, `Scheduler.dfy` | the values exchanged, the abstract queue and its runs |
| `SchedulerInvariant.dfy` | what every reachable state satisfies |
| `SchedulerDependencies.dfy` | who may run, what releases and what ends a waiting task, who is blamed |
| `SchedulerOrder.dfy` | which task leaves a queue next, and how often a task enters |
| `SchedulerProgress.dfy` | nothing is stuck, and when a run can be brought to its end |
| `SchedulerAnswers.dfy` | what each request answers and stores, and where what a task holds comes from |
| `SchedulerDocumentation.dfy` | runs that one sentence of the documentation does not cover |
| `SchedulerRuns.dfy` | finality, the bound on effective steps, dispatch at most once, ownership |
| `TaskTable.dfy`, `CascadeWalk.dfy`, `ReleaseLoop.dfy`, `Coupling.dfy` | the concrete table, its graph, its heaps, and why each change keeps them in agreement |
| `TaskManager.dfy` | the class, and the refinement over whole runs |

Every public method of the task manager takes its lock for the whole body, so a concurrent run is a
sequence of requests. `declared`, `entered` and `popped` are ghost fields: what each task declared,
which row entered its queues each time one did, and one queue name for each entry popped.

**The client call** (`cpp/grpc/client/grpc-client-transport.cpp`). `ClientTransport.dfy` is a
transition system in which any number of calls, their completion callbacks and any number of
`close` calls interleave at every point where the code does not hold a lock. The lock of a call, the
sleep that gives it up, spurious wake-ups, the poll interval, and the answers and exceptions of
`should_cancel` are all explicit. `ClientProtocol.dfy` proves what every interleaving guarantees,
`ClientHistory.dfy` traces what a call holds and reports back to the events that decided it, and
`ClientDocumentation.dfy` has the runs that the documentation of the client does not cover.

**The named mutex** (`cpp/server/core/mutexes.cpp`, and `mutex_acquire` in `cpp/client/client.cpp`).
`Mutexes.dfy` is the server's class, `MutexHistory.dfy` traces its replies back to the grants and
releases before them, `MutexProtocol.dfy` the critical sections of workers that use
it, and `MutexAcquire.dfy` the waiting loop of the client.

## Where the code and its documentation differ

The model follows the code.

- `docs/reference/data-structure.md:76` gives a task one or more queues, but `task_add` accepts none
  (`StrandedTaskExists`). Such a task never runs (`QueuelessNeverRuns`). Workers can end all tasks
  exactly when none is Ready without a queue (`CompletableIff`), and all tasks can still finish exactly
  when each that has not ended names one (`FinishableIff`).
- `cpp/client/include/ds-service/client-transport.hpp:16-17` says a call canceled by `should_cancel`
  throws Cancelled. It can also return its response (`CanceledByPollCanReturn`) or throw Closed
  (`CanceledByPollCanReportClosed`), and it throws Cancelled exactly when it completed as canceled and
  the client was not closed by its end_call (`ReportsCancelledIff`).
- Line 71 of that file says a call canceled by `close` throws Closed. It can also return its response
  (`CanceledByCloseCanReturn`). `ReportsClosedIff` says exactly which calls throw Closed.
- `docs/reference/data-structure.md:112` says that equals leave in the order they were added.
  `AddedFirstCanLeaveLast` is a run in which the later one is ahead. The order is that in which they last
  entered the queue (`FifoAmongEquals`), as later paragraphs of that page say.
- `docs/reference/data-structure.md:123` says that a worker handed a Failed task back.
  `FailedCanBeUnclaimed` is a run with a Failed task that no worker ever had. A Failed task was handed
  out, and handed back, exactly when it is its own origin (`FailedByWorkerIff`).

## Assumptions

- Priorities are real numbers. The code does not exclude NaN, for which its comparator is no order.
- `next_seq` and the counts do not wrap around, and memory does not run out.
- `std::priority_queue` keeps a multiset of entries whose top is a maximal one (`Top`).
- gRPC starts a call without throwing, runs its callback once with a status of its choice, and a
  requested cancellation stays requested.
- A participant of the mutex protocol waits for the answer to one request about a key before it makes
  the next; the clock of `mutex_acquire` never goes back and a sleep takes at least the time asked for.

## Model

The rows that begin with **Main result.** are the theorems; the others are the steps they rest on, the
methods of the classes, and the runs referred to above.

| member | source | states |
|---|---|---|
| TaskServer.Serve | cpp/server/core/task-manager.cpp:36-442 | **Main result.** A server that starts empty answers every run of requests as the abstract queue does and ends in the state that stands for the abstract one; per queue, entries stored plus entries popped are the entries the run pushed |
| TaskServer.TaskManager.Handle | cpp/server/core/task-manager.cpp:82-442 | any one request, refused or not, takes the state the server stands for where the abstract queue goes, with the same reply; a refused `task_get` may still drop dead entries |
| TaskServer.TaskManager.constructor | cpp/server/core/data-structures.hpp:177-190 | a new server stands for the empty queue |
| TaskServer.TaskManager.Add | cpp/server/core/task-manager.cpp:82-180 | adds the row in the state, with the origin and output its parents decide, or refuses with AlreadyExists or NotFound and changes nothing |
| TaskServer.TaskManager.ResolveParents | cpp/server/core/task-manager.cpp:92-105 | all parents are resolved before anything is added; one unknown id refuses them all |
| TaskServer.TaskManager.Survey | cpp/server/core/task-manager.cpp:112-124 | the count is the number of unfinished parents with repetition; the rows found are the first canceled and the first failed parent |
| TaskServer.TaskManager.Decide | cpp/server/core/task-manager.cpp:131-148 | failed over canceled over waiting over ready; an inherited ending carries the parent's origin |
| TaskServer.TaskManager.RegisterChild | cpp/server/core/task-manager.cpp:169-173 | the row is listed with each unfinished parent, once for each time it names it |
| TaskServer.TaskManager.Enqueue | cpp/server/core/task-manager.cpp:36-44 | a fresh number, and in each queue one more entry for each time the row names it, and nothing else |
| TaskServer.TaskManager.PropagateToChildren | cpp/server/core/task-manager.cpp:53-80 | **Main result.** Ends exactly the Waiting rows that declare the given row, directly or not, and changes no other row; the number of iterations is the children of the row plus the children of the rows it moved |
| TaskServer.TaskManager.EndWithDependents | cpp/server/core/task-manager.cpp:261-270 | a row that ends badly is its own origin, and its dependents end with it |
| TaskServer.TaskManager.Cancel | cpp/server/core/task-manager.cpp:251-273 | cancels a live task with its dependents, leaves an ended one alone, refuses an unknown one |
| TaskServer.TaskManager.SetPriority | cpp/server/core/task-manager.cpp:286-308 | records the priority; a Ready row takes a new number and new entries, any other stays where it is |
| TaskServer.TaskManager.TakeTop | cpp/server/core/task-manager.cpp:363-372 | the top entry is taken off; if it is live its row is the best of the queue, and if it is dead everything still agrees without it |
| TaskServer.TaskManager.PopLive | cpp/server/core/task-manager.cpp:356-373 | whatever dead entries the heap holds, what comes up live is the best Ready row naming the queue, and it is empty exactly when there is none |
| TaskServer.TaskManager.Get | cpp/server/core/task-manager.cpp:347-387 | claims the best task of the first listed queue that has one, or refuses with NotFound |
| TaskServer.TaskManager.CountDown | cpp/server/core/task-manager.cpp:434-438 | one off the count; the child is released and queued exactly when that was the last and it is Waiting |
| TaskServer.TaskManager.FinishAndRelease | cpp/server/core/task-manager.cpp:427-439 | a successful report finishes the row and releases exactly the rows it was the last to hold back, in the order they were added |
| TaskServer.TaskManager.Done | cpp/server/core/task-manager.cpp:389-442 | accepted and dropped for a canceled task, refused unless Running and held by the caller, otherwise the report ends the task |
| TaskServer.TaskManager.GetPriority | cpp/server/core/task-manager.cpp:275-284 | the current priority, or NotFound |
| TaskServer.TaskManager.GetOutput | cpp/server/core/task-manager.cpp:201-210 | the stored output, or NotFound |
| TaskServer.TaskManager.GetWorkerId | cpp/server/core/task-manager.cpp:310-326 | the holder of a Running task; NotFound and FailedPrecondition are told apart |
| TaskServer.TaskManager.GetStatus | cpp/server/core/task-manager.cpp:182-199 | the state of each listed task in list order, Undefined for an unknown one |
| TaskServer.TaskManager.GetCountByState | cpp/server/core/task-manager.cpp:212-249 | how many rows are in each state |
| TaskServer.MaximumExists | cpp/server/core/data-structures.hpp:138-145 | every nonempty heap has an entry that no other exceeds in the comparator's order |
| TaskTable.CountIsEdgesInto | cpp/server/core/task-manager.cpp:111-173 | **Main result.** The count of a row equals the listings of it among the children of unfinished rows, and the unfinished parents it declared, both with repetition |
| TaskTable.UnfinishedAfterFinish | cpp/server/core/task-manager.cpp:433-435 | finishing a row lowers the count of another by the number of times that one names it |
| TaskTable.ChildrenCount | cpp/server/core/task-manager.cpp:169-173 | a child is listed as often as it names the row |
| TaskTable.ChildrenSorted | cpp/server/core/task-manager.cpp:169-173 | children are listed in the order they were added |
| TaskTable.EnqueueKeepsHeaps | cpp/server/core/task-manager.cpp:36-44 | entering the queues leaves each Ready row with an entry for each time it names a queue, and kills whatever was left from earlier stays |
| TaskTable.PopKeepsHeaps | cpp/server/core/task-manager.cpp:362-372 | dropping a dead entry takes nothing from any Ready row |
| TaskTable.PushedIsByRows | cpp/server/core/task-manager.cpp:40-43 | the entries pushed, one enqueue at a time, are the enqueues of each row times how often it names the queue |
| CascadeWalk.WalkMeetsNoWorker | cpp/server/core/task-manager.cpp:62-74 | **Main result.** A row taken from the stack is Waiting or has ended: the walk never takes work from a worker |
| CascadeWalk.WalkReachesAll | cpp/server/core/task-manager.cpp:55-79 | stopping at ended rows misses no Waiting dependent |
| CascadeWalk.WalkIsCascade | cpp/server/core/task-manager.cpp:53-80 | **Main result.** The rows after the walk are those of the abstract cascade |
| CascadeWalk.VisitTop | cpp/server/core/task-manager.cpp:61-79 | one turn keeps the walk's invariant and either shortens the stack or leaves fewer Waiting rows, and accounts for the children pushed |
| ReleaseLoop.DueIffReleasable | cpp/server/core/task-manager.cpp:433-436 | the count of a child is positive when it is decremented, and reaches zero with the child Waiting exactly at the child's last listing when all its parents have finished |
| ReleaseLoop.CountdownEnds | cpp/server/core/task-manager.cpp:433-439 | **Main result.** After the loop exactly the releasable rows are Ready, numbered in the order they were added |
| Coupling.RootEnds | cpp/server/core/task-manager.cpp:261-270 | when a live row ends badly, everything below it is Waiting or has ended, so the walk may start |
| Coupling.EndIsEnd | cpp/server/core/task-manager.cpp:420-425 | ending a row and walking its dependents is the abstract ending |
| Coupling.FinishCanRelease | cpp/server/core/task-manager.cpp:427-439 | right after a row finishes each count lags by the times the child names it, and only its children can have become releasable |
| Coupling.AddKeepsGraph | cpp/server/core/task-manager.cpp:150-173 | counts and child lists agree with the declared parents after a row is added |
| Coupling.AddIsAppend | cpp/server/core/task-manager.cpp:126-177 | an accepted `task_add` appends one row and logs it as queued exactly when it is Ready |
| Coupling.TopIsBest | cpp/server/core/task-manager.cpp:24-34 | **Main result.** A live entry on top of a heap stands for the best Ready row naming the queue |
| Coupling.EmptyHeapOffersNothing | cpp/server/core/task-manager.cpp:362-384 | no Ready row names a queue whose heap is empty |
| Coupling.PopTop | cpp/server/core/task-manager.cpp:362-372 | what taking the top entry comes to, dead or live |
| Coupling.DoneRefines | cpp/server/core/task-manager.cpp:427-439 | a report with its countdown is one abstract step and keeps every redundant part in agreement |
| Coupling.SetPriorityRefines | cpp/server/core/task-manager.cpp:286-308 | the renumbered table stands for the abstract step, and only a Ready row is logged as entering again |
| Coupling.ClaimRefines | cpp/server/core/task-manager.cpp:374-382 | moving the chosen row to Running for the caller is the abstract claim |
| SchedulerInvariant.DescendantIsHeld | docs/reference/data-structure.md:88-89 | every declared descendant of an unfinished task is Waiting, Failed or Canceled |
| SchedulerInvariant.EndAt | cpp/server/core/task-manager.cpp:66-74 | what a bad ending does to each row |
| SchedulerInvariant.StepKeepsInv | cpp/server/core/task-manager.cpp:82-442 | every request, in every state that satisfies the invariant, leads to one that does |
| SchedulerInvariant.RunKeepsInv | cpp/server/core/data-structures.hpp:146-173 | **Main result.** The invariant holds in every state of every run: dependencies, origins, empty output and no worker before the end, distinct ids and arrival numbers |
| SchedulerDependencies.AddDecides | cpp/server/core/task-manager.cpp:107-167 | an accepted task holds the id, queues, function, input and priority of the request, and its parents are the rows its ids name; it starts Failed exactly when a parent has failed, else Canceled exactly when one was canceled, else Ready exactly when all have finished; an ending it starts with, and whom it blames, is that of the first parent that ended that way |
| SchedulerDependencies.AncestorsFinished | docs/reference/data-structure.md:149-151 | **Main result.** A Ready, Running or Finished task has only Finished tasks above it, however far up |
| SchedulerDependencies.WaitingHasLiveParent | cpp/server/core/task-manager.cpp:107-143 | a Waiting task has a live parent and no Failed or Canceled one |
| SchedulerDependencies.BadEndingSpreads | docs/explanation/the-task-queue.md:42-50 | **Main result.** Once a task has failed or been canceled, every task that depends on it has too, also one added later |
| SchedulerDependencies.ReleasedIff | cpp/server/core/task-manager.cpp:433-439 | **Main result.** A waiting task is released exactly by the successful report of its last unfinished parent, however often it names it |
| SchedulerDependencies.TakenDownIff | cpp/server/core/task-manager.cpp:53-80 | **Main result.** A waiting task ends exactly when it is canceled, or something it depends on is canceled or reported failed |
| SchedulerDependencies.OriginInState | cpp/server/core/data-structures.hpp:166-172 | **Main result.** The origin is the task itself or a declared ancestor, is its own origin and ended the same way; an inherited failure reports the text that names the origin's id, and an inherited cancellation reports the text for canceled tasks |
| SchedulerDependencies.FailureWasReported | docs/explanation/the-task-queue.md:64-74 | **Main result.** The task blamed for a failure was handed to a worker that then reported it failed |
| SchedulerDependencies.RunningEndsOnItsOwn | cpp/server/core/task-manager.cpp:66-74 | a Running task ends by its own report or by being canceled by name, never because of another task |
| SchedulerDependencies.FailedByWorkerIff | docs/reference/data-structure.md:120-124 | **Main result.** A Failed task was handed to a worker, and handed back by it, if and only if it is its own origin |
| SchedulerDocumentation.FailedCanBeUnclaimed | docs/reference/data-structure.md:123 | a run with a Failed task that no `task_get` returned |
| SchedulerDependencies.CancellationWasRequested | cpp/server/core/task-manager.cpp:266-270 | the task blamed for a cancellation was canceled by name |
| SchedulerOrder.BestExists | cpp/server/core/task-manager.cpp:24-34 | a queue has a best task exactly when a Ready task names it |
| SchedulerOrder.GetFindsBest | cpp/server/core/task-manager.cpp:356-386 | **Main result.** `task_get` finds nothing exactly when no Ready task names a listed queue, and otherwise takes the best task of the first listed queue that has one |
| SchedulerOrder.StepEnters | cpp/server/core/task-manager.cpp:36-44 | a row enters its queues when it becomes Ready and when it is reprioritized while Ready, each time under a number above all earlier ones |
| SchedulerOrder.StepEntersInOrder | cpp/server/core/task-manager.cpp:433-439 | siblings released by one report line up in the order they were added |
| SchedulerOrder.FifoAmongEquals | cpp/common/include/ds-service/messages.hpp:161-165 | **Main result.** Of two Ready tasks of equal priority, one is ahead exactly when it last entered the queues first, however it entered |
| SchedulerDocumentation.AddedFirstCanLeaveLast | docs/reference/data-structure.md:111-112 | a run in which, of two Ready tasks of equal priority in one queue, the one added later is ahead |
| SchedulerOrder.ClaimIsFirstIn | cpp/common/include/ds-service/messages.hpp:161-165 | **Main result.** A task that a `task_get` of the run hands out comes from the first listed queue that offers any, and no task there had a higher priority, or the same and entered before it |
| SchedulerOrder.ReprioritizedGoesBehind | docs/reference/data-structure.md:113-114 | a new priority puts a Ready task behind all others that have it |
| SchedulerOrder.EntriesExact | cpp/server/core/task-manager.cpp:299-305 | **Main result.** A row enters its queues once when it becomes Ready and once for each new priority given while Ready |
| SchedulerOrder.PushesBounded | docs/developer-notes.md:487-495 | **Main result.** The entries ever pushed into a queue are bounded by what its rows name, once each and once for each new priority while Ready |
| SchedulerAnswers.AddAnswers | cpp/server/core/task-manager.cpp:85-105 | a known id is refused first, then an unknown parent, and neither changes anything; every other task is accepted |
| SchedulerAnswers.GetAnswers | cpp/server/core/task-manager.cpp:356-386 | refused exactly when no listed queue offers a task; otherwise one such task becomes Running for the caller, who is told its id, function and input, and no other task changes |
| SchedulerAnswers.ReportAnswers | cpp/server/core/task-manager.cpp:399-415 | a report on a canceled task is accepted and dropped; any other that is not the holder's is refused and changes nothing |
| SchedulerAnswers.FailureStores | cpp/server/core/task-manager.cpp:416-425 | the output reported is stored, every task waiting on the failed one fails with the text that names it, and no other task changes |
| SchedulerAnswers.SuccessStores | cpp/server/core/task-manager.cpp:416-439 | the output reported is stored, and the other tasks change only by being released |
| SchedulerAnswers.CancelAnswers | cpp/server/core/task-manager.cpp:259-273 | an ended task is left alone and success is false; a live one is canceled, loses its worker and takes its dependents with it, all with the text for canceled tasks |
| SchedulerAnswers.SetPriorityAnswers | cpp/server/core/task-manager.cpp:294-308 | the priority is stored whatever state the task is in, and nothing else changes but the place of a Ready task |
| SchedulerAnswers.UnknownAnswers | cpp/server/core/task-manager.cpp:201-413 | a request that names an unknown task is refused with NotFound and changes nothing |
| SchedulerAnswers.QueryAnswers | cpp/server/core/task-manager.cpp:201-326 | priority, output and holder are those of the named task, and the holder is refused unless it is Running |
| SchedulerAnswers.StatusAnswers | cpp/server/core/task-manager.cpp:182-199 | states in list order, Undefined for an unknown id |
| SchedulerAnswers.CountAnswers | cpp/server/core/task-manager.cpp:212-249 | each count is the number of tasks in the state it is named for |
| SchedulerAnswers.RowIsAsAdded | docs/reference/data-structure.md:73-78 | **Main result.** In every run a task keeps the id, parents, queues, function and input of the one request that added it |
| SchedulerAnswers.StepPriority | cpp/server/core/task-manager.cpp:286-308 | only task_set_priority changes the priority of a task, and only of the one it names |
| SchedulerAnswers.PriorityFollowsRequests | docs/reference/data-structure.md:102-103 | **Main result.** In every run a task has the priority of the last accepted task_add or task_set_priority that names it |
| SchedulerAnswers.ClaimAnswersAdd | cpp/server/core/task-manager.cpp:374-382 | **Main result.** A claim answers the id, function and input of the task_add that added the task, which named one of the queues asked for, and the task stood there at the priority last set for it |
| SchedulerAnswers.OutputAnswers | docs/reference/data-structure.md:99 | **Main result.** task_get_output answers nothing before the end, the text for canceled tasks, the text naming the task whose run failed, or what the holder reported |
| SchedulerAnswers.OutputsTellOriginsApart | docs/explanation/the-task-queue.md:64-74 | tasks that failed because of different tasks have different outputs |
| SchedulerProgress.WaitingHasChain | cpp/server/core/task-manager.cpp:95-143 | **Main result.** Every waiting task has a chain of waiting tasks, strictly decreasing in index, that ends in a Ready or Running one |
| SchedulerProgress.NoDeadlock | docs/explanation/the-task-queue.md:52-62 | **Main result.** With no task Running and nothing to get from any queue in use, all tasks have ended if and only if no Ready task was added without a queue |
| SchedulerProgress.StrandedTaskExists | cpp/server/core/task-manager.cpp:158-177 | the server accepts a task without a queue, and no `task_get` finds it |
| SchedulerProgress.QueuelessNeverRuns | cpp/server/core/task-manager.cpp:356-373 | in no run is a task without a queue ever Running, Finished or failed by its own report |
| SchedulerProgress.CanComplete | docs/explanation/the-task-queue.md:52-62 | any run that leaves no task Ready without a queue can be continued by claims and reports, at most three for each task, until all tasks have ended |
| SchedulerProgress.CompletableIff | docs/explanation/the-task-queue.md:52-62 | **Main result.** Claims and reports can end all tasks if and only if no task is Ready without a queue |
| SchedulerProgress.CanFinish | docs/explanation/the-task-queue.md:52-62 | if every task that has not ended names a queue, claims and successful reports, at most three for each task, make every one of them Finished |
| SchedulerProgress.FinishableIff | docs/reference/data-structure.md:73-91 | **Main result.** All tasks that have not ended can still finish, by whatever requests, if and only if each of them names a queue |
| SchedulerProgress.CountsCover | cpp/common/include/ds-service/messages.hpp:101-104 | the six counts sum to the number of tasks |
| SchedulerRuns.StepMovesRow | docs/reference/data-structure.md:84-91 | the only moves a task can make, and that nothing it was added with changes |
| SchedulerRuns.RowOverRun | docs/reference/data-structure.md:84-91 | rows are never removed, and over any stretch of a run a task only moves on |
| SchedulerRuns.FinalForever | docs/reference/data-structure.md:90-91 | **Main result.** State, output, origin and worker of an ended task never change again |
| SchedulerRuns.ProgressBound | cpp/server/core/task-manager.cpp:66-439 | **Main result.** A run that adds N tasks has at most 3N steps that move a task |
| SchedulerRuns.AtMostOneClaim | cpp/server/core/task-manager.cpp:370-382 | **Main result.** No task is handed out twice in a run |
| SchedulerRuns.HolderClaimed | cpp/server/core/task-manager.cpp:374-376 | a Running task is held by the worker it was handed to |
| SchedulerRuns.EndedByItsHolder | docs/explanation/the-task-queue.md:9-14 | **Main result.** A task that finished, or failed on its own account, was handed to one worker, and that worker's later report ended it with the output it now has |
| MutexServer.Mutexes.constructor | cpp/server/core/data-structures.hpp:105-108 | no key exists at first |
| MutexServer.Mutexes.TryAcquire | cpp/server/core/mutexes.cpp:9-20 | acquires a free or unknown mutex for the worker, changes nothing otherwise, and is not reentrant |
| MutexServer.Mutexes.Release | cpp/server/core/mutexes.cpp:22-41 | frees the mutex for its holder and keeps the key known; every other case is refused and creates nothing |
| MutexServer.Mutexes.GetWorkerId | cpp/server/core/mutexes.cpp:43-56 | the holder; a missing key and a free one are told apart |
| MutexHistory.HolderIff | docs/reference/data-structure.md:268-279 | **Main result.** In every run a worker is recorded as the holder exactly when it was granted the mutex and no release has freed it since; a key exists exactly when an attempt has named it |
| MutexHistory.RepliesFollowHistory | cpp/common/include/ds-service/messages.hpp:269-299 | **Main result.** In every run an attempt is granted exactly when nobody holds the mutex, a release is accepted exactly from the holder, and the holder, a free mutex and an unknown key are reported as such |
| MutexProtocol.ExclusionIffDistinctIds | docs/reference/data-structure.md:268-273 | **Main result.** The mutexes exclude in every run, whoever releases what, if and only if the worker ids are distinct |
| MutexProtocol.HonestRunsExclude | cpp/server/core/mutexes.cpp:9-41 | **Main result.** Participants that release only what they acquired never meet inside, even if they share ids |
| MutexProtocol.SharedIdCollides | cpp/server/core/mutexes.cpp:30-39 | with a shared id, a release of what the other acquired lets both in |
| MutexProtocol.GrantedIffUnclaimed | cpp/server/core/mutexes.cpp:12-19 | **Main result.** An attempt is granted exactly when no participant is inside or has its release on the way |
| MutexProtocol.OwnReleaseSucceeds | cpp/server/core/mutexes.cpp:25-40 | the release of what was acquired is never refused |
| MutexClient.Acquire | cpp/client/client.cpp:159-185 | **Main result.** Polls until the first attempt that finds the key free, or the first failed one that is answered when the timeout has elapsed; each sleep is 0.5 seconds plus the jitter, cut to what is left of the timeout; with T > 0 fewer than T / 0.4 + 2 attempts; without a timeout it never gives up |
| MutexClient.ClockAdvances | cpp/client/client.cpp:173-183 | every attempt that does not time out brings the clock on by 0.4 seconds or to the deadline |
| MutexClient.SleepEndsInTime | cpp/client/client.cpp:175-183 | every sleep is positive and ends by the deadline |
| ClientTransport.NextKeepsInv | cpp/grpc/client/grpc-client-transport.cpp:201-312 | every event, in every state that satisfies the invariant, leads to one that does |
| ClientTransport.RunKeepsInv | cpp/grpc/client/grpc-client-transport.cpp:327-332 | **Main result.** In every interleaving the registered calls are those begun and not ended, locks have one owner, and a closed client has canceled every registered call or is about to |
| ClientProtocol.NoEarlyUnwind | cpp/grpc/client/grpc-client-transport.cpp:222-257 | **Main result.** `invoke` leaves its frame only after the callback has stored the status, set `done` and let go of the lock |
| ClientProtocol.EndedForever | cpp/grpc/client/grpc-client-transport.cpp:222-224 | nothing touches a call after its frame is gone |
| ClientProtocol.NoLostWakeUp | cpp/grpc/client/grpc-client-transport.cpp:230-235 | **Main result.** A thread that sleeps has its notification still to come, the lock is not its own, and the notification wakes it |
| ClientProtocol.WaitCancelsOnce | cpp/grpc/client/grpc-client-transport.cpp:288-312 | **Main result.** Whatever `should_cancel` answers, `wait` cancels a call at most once, and never asks again after a yes or while it holds the lock |
| ClientHistory.CanceledByWaitIff | cpp/grpc/client/grpc-client-transport.cpp:301-311 | **Main result.** `wait` has canceled a call exactly when `should_cancel` was asked and said yes, and `wait` has acted on that |
| ClientHistory.CancelRequestedIff | cpp/grpc/client/grpc-client-transport.cpp:201-312 | **Main result.** A call is canceled exactly when `should_cancel` said yes or threw and the thread has acted on it, or a close came to it |
| ClientHistory.CheckAnswers | cpp/grpc/client/grpc-client-transport.cpp:290-311 | a thread leaves when the call is done, asks when its sleep ended by itself and no yes was given, and sleeps on otherwise |
| ClientHistory.SleepsBeforeEachQuestion | cpp/grpc/client/grpc-client-transport.cpp:296-304 | `should_cancel` is asked only after a sleep of the poll interval, a new one before every question |
| ClientHistory.BeginAnswers | cpp/grpc/client/grpc-client-transport.cpp:261-275 | a call is registered while the client is open, and rejected once it is closed |
| ClientProtocol.CloseCancelsAll | cpp/grpc/client/grpc-client-transport.cpp:201-207 | **Main result.** The registered calls are the active ones, `close` visits only those, and once it is done every one has been canceled |
| ClientProtocol.CloseCancelsRegistered | cpp/grpc/client/grpc-client-transport.cpp:201-207 | a close, in whatever order it visits the calls, closes the client, cancels every registered call and changes nothing else |
| ClientProtocol.ClosedIff | cpp/grpc/client/grpc-client-transport.cpp:201-203 | in every interleaving the client is closed exactly when some close has taken the lock |
| ClientProtocol.ClosedForGood | cpp/grpc/client/grpc-client-transport.cpp:269-274 | **Main result.** Once closed, no call is registered, and a later call is rejected without reaching the stub |
| ClientProtocol.CloseIsIdempotent | docs/reference/cpp-client.md:108-110 | closing a closed client changes nothing, whatever the order of the calls visited |
| ClientProtocol.EndedByEnd | cpp/grpc/client/grpc-client-transport.cpp:249-256 | what a call reports was decided by its status, by what should_cancel did, and by what end_call saw |
| ClientHistory.ReportsIff | cpp/grpc/client/grpc-client-transport.cpp:249-321 | **Main result.** An ended call rethrows exactly what `should_cancel` threw; else it returns exactly when the callback stored success; else it reports the status stored, unless that is a cancellation and the client was closed |
| ClientProtocol.ReportsClosedIff | cpp/grpc/client/grpc-client-transport.cpp:249-321 | **Main result.** A call that was not rejected reports Closed if and only if it completed as canceled, the client was closed by its end_call and `should_cancel` did not throw |
| ClientProtocol.ReportsCancelledIff | cpp/client/include/ds-service/client-transport.hpp:15-19 | **Main result.** A call that `should_cancel` canceled reports Cancelled if and only if it completed as canceled and the client was not closed by its end_call |
| ClientProtocol.CanceledAfterClose | cpp/grpc/client/grpc-client-transport.cpp:314-321 | a call that ends after the close with a canceled status reports Closed, unless `should_cancel` threw |
| ClientProtocol.OnlyOnward | cpp/grpc/client/grpc-client-transport.cpp:288-312 | after the callback has run the waiting thread only gets closer to its end, whatever the others do |
| ClientProtocol.CallCanEnd | cpp/grpc/client/grpc-client-transport.cpp:226-312 | **Main result.** No interleaving deadlocks: from every reachable state each begun call can be brought to its end |
| ClientProtocol.EveryScheduleEnds | cpp/grpc/client/grpc-client-transport.cpp:237-256 | **Main result.** Once its callback has run, a call ends under every schedule that gives its thread six turns, whatever should_cancel answers and the others do |
| ClientDocumentation.CanceledByCloseCanReturn | cpp/client/include/ds-service/client-transport.hpp:69-73 | a call that `close` canceled can return its response |
| ClientDocumentation.CanceledByPollCanReportClosed | cpp/client/include/ds-service/client-transport.hpp:15-19 | a call that `should_cancel` canceled can report Closed |
| ClientDocumentation.CanceledByPollCanReturn | cpp/client/include/ds-service/client-transport.hpp:15-19 | a call that `should_cancel` canceled can return its response |

## Left out

- Regular expressions: `task_search_id`, `mutex_search_key` and the other key searches are RE2 over the ids.
- `Map`, `JournalMap`, `Counters` and the time series: one-line operations on a map, and date parsing.
- The gRPC server, the codec, `main.cpp`, the bindings and the Python client: forwarding and I/O.
- The wording of errors, except the outputs of canceled tasks and of tasks failed by a dependency.
- The inside of `std::priority_queue` and of the hash maps: the heap is a multiset with a maximal top.
- Wrap-around of `next_seq` and of the counts, NaN priorities and exhausted memory.
- Deadlines of calls, keepalive and message sizes: gRPC reports them as a status, which the model leaves free.
- The rounding of durations to clock ticks, and the distribution of the jitter: only its range is used.
- An exception that a call throws inside `mutex_acquire`: it leaves the loop with the mutexes as they are.
- MutexClient.Acquire: stops when the turns it is given are used up, because without a timeout the loop may run forever.
