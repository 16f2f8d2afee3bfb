# Verified models of the batteries library

`batteries` is a C++ library of task scheduling, synchronization, byte streams and parallel
algorithms.  This project models its most intricate parts in Dafny and proves what they are for.

| file | module | what it models |
|---|---|---|
| `Watch.dfy` | `WatchAtomic` | an atomic value with an observer list guarded by a spin bit; any number of threads, every atomic access one step |
| `Task.dfy` | `TaskState` | the bit-state word of a task: suspend, signal, terminate, stack-trace dump, completion handlers |
| `Queue.dfy` | `QueueOverMutex` | the counting queue over the ticket mutex |
| `Grant.dfy` | `GrantPool` | the pool of a counted resource and its grants |
| `Latch.dfy` | `Latches` | the write-once latch |
| `ShardReduction.dfy` | `ShardReduction` | the binomial-tree reduction that ends a parallel model check |
| `ChunkDecoder.dfy`, `ChunkEncoder.dfy`, `ChunkGrammar.dfy` | `ChunkDecoder`, `ChunkEncoder`, `ChunkGrammar` | the chunked transfer coding (section 4.1 of RFC 7230), both ways, and the grammar that both are held against |
| `HttpChunkDecoder.dfy`, `HttpChunkProgress.dfy`, `HttpChunkFaults.dfy` | `HttpChunkDecoding`, `HttpChunkProgress`, `HttpChunkFaults` | the buffered source of decoded bytes that re-decodes from a checkpoint: the object, what its fields mean, and what happens after invalid input |
| `HttpParser.dfy` | `HttpParser` | the request and response parser and the printers (sections 3.1 and 3.2 of RFC 7230) |
| `MessageGrammar.dfy`, `MessageVerdicts.dfy` | `MessageGrammar`, `MessageVerdicts` | the grammar that parser and printers are held against, and which inputs are incomplete and which malformed |
| `EarlyExit.dfy` | `EarlyExit` | the quick look that spares parsing a message again while it is incomplete |
| `StreamBuffer.dfy` | `StreamBuffers` | the single-producer, single-consumer byte ring |
| `RadixQueue.dfy` | `RadixQueues` | the queue of mixed-radix digits packed into 64-bit segments |
| `ParallelMerge.dfy` | `ParallelMerge` | the three-phase parallel stable merge |
| `SliceWork.dfy`, `RunningTotal.dfy`, `ParallelAccumulate.dfy` | `SliceWork`, `RunningTotals`, `ParallelAccumulate` | work slicing and the two reductions built on it |
| `KMerge.dfy` | `KMerge` | the heap-based merge of many sorted sequences |
| `ByteTypes.dfy`, `Sequences.dfy`, `Ordering.dfy`, `Arithmetic.dfy`, `Wrappers.dfy` | the same names | shared definitions |

The protocols are state machines.  A state is the shared object plus one program position per
thread; a step is one atomic access of one thread, and a run is any sequence of steps from a start
state, so every theorem about a run is about every interleaving.  Fields marked as history in the
state record what has happened and influence nothing.  Objects that one thread changes are classes,
loops are loops, and each such method is proved against a function of its inputs.

What the proofs bring to light, beyond the promises that hold:

- `async_wait` is documented to report a value other than `last_seen`.  Without any further change of
  the value, it can report exactly that one if and only if a notifier of it is past its change and can
  still be the first to take the list (`WatchAtomic.StaleReport`; `WatchAtomic.StaleDelivery` is such a
  run).  Handlers that `async_wait` invokes itself always get another value
  (`WatchAtomic.OwnThreadReportsChange`), and all of them only values that the watch has had
  (`WatchAtomic.OnlyHeldValues`).
- `modify` and `modify_if` are documented to return the new value of an integer watch; they return the
  value held before (`WatchAtomic.ReturnsPrior`).
- The parser finds a message incomplete, and its caller waits for more, in a few cases in which nothing
  that follows can make it acceptable: `MessageVerdicts.RequestVerdict` and
  `MessageVerdicts.ResponseVerdict` name them all.  The chunk decoder has no such case
  (`ChunkGrammar.FailsAtOnce`).
- The encoder starts its last chunk with a line end, so an empty stream is encoded as bytes the
  decoder rejects; the round trip holds exactly for a non-empty list of chunks and equal trailer flags
  (`ChunkEncoder.RoundTrip`, `ChunkEncoder.EmptyStreamIsRejected`).
- After the chunk decoder has reported invalid input, it still hands out the valid bytes before the
  fault.  Once they are consumed, it decodes the buffer with the fault again, in the state it was in
  at the fault (`HttpChunkDecoding.ReadPastFault`), and can hand out the same bytes as often as it is
  asked (`HttpChunkFaults.ReadAgainAndAgain`): of any chunks followed by a byte that cannot begin a
  chunk size, when they arrive in one buffer (`HttpChunkFaults.FaultAfterChunks`).
- After invalid input was reported, a request for more than is on offer decodes again from the
  checkpoint.  If the source then answers with bytes that decode to less than was consumed, the size
  wraps around and a check ends the program; exactly then (`HttpChunkDecoding.HttpChunkDecoder.FetchAtLeast`).
  The source can answer so if and only if the first bytes it is asked for decode to less than was
  consumed (`HttpChunkFaults.CanWrap`), and a client of every chunk of two bytes or more can bring it
  about (`HttpChunkFaults.AskAgainAfterFault`).
- `ClosedBeforeEndOfStream` is reported exactly when the source has fewer bytes left than the request
  makes the decoder ask for.  A complete body can be reported so, but only if it has at least two bytes
  fewer left than requested (`HttpChunkDecoding.HttpChunkDecoder.FetchAtLeast`,
  `HttpChunkDecoding.AskForTooMuch`).
- `Grant::swap` loses resource when a grant is swapped with itself, or swapped while another thread
  stores in it, although the methods are documented as thread-safe with respect to each other.  Calls
  that are `GrantPool.Clear` never make a swap overwrite anything; every other call can make one
  overwrite exactly the amount at risk, which is known for each operation it gets in the way of
  (`GrantPool.ClearCallsOverwriteNothing`, `GrantPool.UnclearCallCanOverwrite`).  Without moves that is
  all there is to it (`GrantPool.ClearConservesWithoutMoves`).  With moved-from grants in play an amount
  can also be left in a grant that has no issuer any more.  Calls that are `GrantPool.Careful` lose
  nothing in either way, and every clear call that is not careful can strand a positive, exactly known
  amount (`GrantPool.CarefulConserves`, `GrantPool.CarelessCallCanStrand`).
- `Issuer::close` is documented to deny all future requests; a request that can be met still is
  (`GrantPool.ClosedPoolStillIssues`).
- `RadixQueue::empty` is documented as "no items"; it means that no item of radix 2 or more is
  pending (`RadixQueues.EmptyMeans`).  Equal queues behave alike, but queues with the same pending
  items need not be equal (`RadixQueues.SamePendingMayDiffer`).
- `write_all` is documented as one `prepare_exactly` followed by a copy; it writes in as many parts as
  the space allows.
- `parallel_merge` divides by zero when it has ranges to cut up and `max_tasks` is 0, which is what its
  default gives on a machine that reports at most one hardware thread.  Merges with an empty range, or
  of no more than `min_task_size` elements, do not come to the division (`ParallelMerge.CutsUp`).

## Model

| member | source | states |
|---|---|---|
| `WatchAtomic.NextEffect` | src/batteries/async/watch_decl.hpp:684-749 | only the holder of the spin bit changes the observer list or the flags, and the bit follows its holder |
| `WatchAtomic.StepInv` | src/batteries/async/watch_decl.hpp:333-374 | every atomic step of close, set, fetch, modify, wait and notify keeps the joint invariant of lock, list, value and program positions |
| `WatchAtomic.StepWake` | src/batteries/async/watch_decl.hpp:716-749 | the informal argument in notify: a notifier that leaves without draining leaves no out-of-date handler behind |
| `WatchAtomic.StepOnePlace` | src/batteries/async/watch_decl.hpp:555-588 | every step keeps every handler in exactly one place: being registered, listed, drained, or delivered |
| `WatchAtomic.NoLostWakeup` | src/batteries/async/watch_decl.hpp:700-749 | in every run, while a listed handler's last seen value differs from the value, some thread is past its change and committed to draining the list |
| `WatchAtomic.DeliveredAtMostOnce` | src/batteries/async/watch_decl.hpp:555-588 | in every run no handler is invoked twice |
| `WatchAtomic.Quiescent` | src/batteries/async/watch_decl.hpp:555-588 | when all threads have finished, each handler was delivered or is listed, with the watch open and the value it has seen |
| `WatchAtomic.CloseIsFinal` | src/batteries/async/watch_decl.hpp:333-374 | after a close has released the lock no handler is ever listed again and the final status never changes |
| `WatchAtomic.FinalStatusIsUnique` | src/batteries/async/watch_decl.hpp:682-698 | every status a handler receives is that of the first close |
| `WatchAtomic.OutOfDateIsDelivered` | src/batteries/async/watch_decl.hpp:716-749 | threads already under way suffice to deliver an out-of-date handler: the holder leaves, the committed notifier locks, drains and invokes |
| `WatchAtomic.WakeupIsDeliverable` | src/batteries/async/watch_decl.hpp:716-749 | in every reachable state an out-of-date handler can still be delivered |
| `WatchAtomic.ReportableValues` | src/batteries/async/watch_decl.hpp:716-749 | in every reachable state, without any further change of the value, v can be reported to a listed handler if and only if a notifier of v is past its change and nobody else holds the lock to take the list |
| `WatchAtomic.StaleReport` | src/batteries/async/watch_decl.hpp:748-748 | without any further change of the value, the one that a listed handler has already seen can be reported to it if and only if such a notifier of that value is on its way |
| `WatchAtomic.OwnThreadReportsChange` | src/batteries/async/watch_decl.hpp:555-588 | in every run a handler that async_wait invokes itself gets a value other than last_seen, or a final status |
| `WatchAtomic.OnlyHeldValues` | src/batteries/async/watch_decl.hpp:555-588 | in every run, whatever a handler is given, a notifier is to report, or a transform of modify or await_modify is applied to, is a value that the watch has had |
| `WatchAtomic.AwaitTrueIsGiven` | src/batteries/async/watch_decl.hpp:607-616 | in every run, await_true tests and returns only values that the watch has had, or ends with a status; and that only if the watch is closed by then, with that status |
| `WatchAtomic.UpdateIsAtomic` | src/batteries/async/watch_decl.hpp:466-548 | a set, fetch or modify that stores takes the value held just before that very step to what its transform makes of that same value; no other step changes the value |
| `WatchAtomic.UpdatesInTurn` | src/batteries/async/watch_decl.hpp:384-548 | in every run the value is the result of all updates that came to their end, applied one after the other: none is lost, repeated or applied to an out-of-date value |
| `WatchAtomic.UpdateEnds` | src/batteries/async/watch_impl.hpp:40-48 | left alone, a compare-and-swap loop ends within two rounds |
| `WatchAtomic.ReturnsPrior` | src/batteries/async/watch_decl.hpp:487-488 | the value returned by a modify that stores is the one held just before it |
| `WatchAtomic.AdditionsAddUp` | src/batteries/async/watch_decl.hpp:402-411 | in every run of additions, whatever the operation, the value is the start value plus all that was started less what is still to be stored |
| `WatchAtomic.IncrementsAllCount` | src/batteries/async/watch_decl.hpp:466-490 | n increments from zero, all ended, leave n |
| `WatchAtomic.ChangeIsNotified` | src/batteries/async/watch_decl.hpp:476-485 | a thread comes to notify if and only if its update changed the value, or would have in an earlier round of a modify or modify_if |
| `WatchAtomic.ChangedInAnEarlierRound` | src/batteries/async/watch_decl.hpp:473-476 | such an earlier round is one of the same call, with the same transform, whose result differed from the value it was applied to |
| `WatchAtomic.StatusIsGiven` | src/batteries/async/watch_decl.hpp:333-374 | in every run the status of a closed watch, which every handler gets, is the code given to the call that closed it |
| `WatchAtomic.CloseTakesEffect` | src/batteries/async/watch_decl.hpp:333-374 | in every run, from the start of a close on, the watch is closed or that call is on its way to close it |
| `WatchAtomic.WaitIsStarted` | src/batteries/async/watch_decl.hpp:555-588 | in every run a handler handed to async_wait is among those that the other results speak of |
| `WatchAtomic.WaitAlone` | src/batteries/async/watch_decl.hpp:555-588 | an undisturbed wait is given the value if that is another than last_seen, closed or not; otherwise the final status if the watch is closed; otherwise it joins the list, and nothing else changes |
| `WatchAtomic.OperationsEnd` | src/batteries/async/watch_decl.hpp:333-749 | from every reachable state the operations under way can all come to their ends without any other being started |
| `TaskState.StepInv` | src/batteries/async/task_impl.hpp:287-336 | every atomic step of event handling, scheduling, yielding, dumping and completion keeps the invariant of the state word and of all threads' roles |
| `TaskState.ScheduleKept` | src/batteries/async/task_impl.hpp:312-336 | one round of the schedule loop, with spurious failures, keeps the scheduler's role tied to the ready state |
| `TaskState.DumpKept` | src/batteries/async/task_impl.hpp:467-540 | the stack-trace dump takes the task only under the trace bit and passes a ready task on to a scheduler |
| `TaskState.OwnerKept` | src/batteries/async/task_impl.hpp:572-619 | activation, switching in and out, and the trampoline keep one owner of the continuation |
| `TaskState.BodyKept` | src/batteries/async/task_decl.hpp:753-777 | awaiting, yielding, preemption and leaving the body keep the invariant, given that each await's handler is used once; where they lead is stated by the rows on going on and on the end |
| `TaskState.OneSchedulePerSuspension` | src/batteries/async/task_impl.hpp:287-336 | in every run each suspension has exactly one successful schedule, and no check in the code fails |
| `TaskState.ReadyIsCommitted` | src/batteries/async/task_decl.hpp:178-198 | in every run a ready state has exactly one thread committed to scheduling it |
| `TaskState.OneOwner` | src/batteries/async/task_impl.hpp:387-407 | in every run at most one agent has the continuation: a posted activation, the thread that runs it, or one stack-trace dumper, and the last only while the task is suspended and nothing is posted |
| `TaskState.CommittedSchedulerSucceeds` | src/batteries/async/task_impl.hpp:312-336 | left alone, a committed scheduler takes the task out of suspension within two accesses |
| `TaskState.StepOnePlace` | src/batteries/async/task_decl.hpp:633-653 | every step keeps each completion handler in exactly one place |
| `TaskState.HandlersRunOnceAfterTheEnd` | src/batteries/async/task_impl.hpp:170-190 | in every run no completion handler runs twice or before the task is terminal |
| `TaskState.NoHandlerIsStranded` | src/batteries/async/task_decl.hpp:633-653 | when a terminal task's threads have finished, every registered handler has run |
| `TaskState.NextTerm` | src/batteries/async/task_impl.hpp:158-165 | the terminated bit is set by leaving the body and by no other step |
| `TaskState.TerminalIsItsOwnEnd` | src/batteries/async/task_impl.hpp:158-165 | in every run a task is terminal only if it has left its body function |
| `TaskState.TaskGoesOn` | src/batteries/async/task_impl.hpp:387-407 | in every reachable state, a task that is not terminal and waits for nothing is brought back to running, where it was, by the threads under way: suspending, dumping, scheduling, posting, activating and resuming |
| `TaskState.YieldGoesOn` | src/batteries/async/task_decl.hpp:289-293 | after a yield in its body the task is not terminal and goes on with its body |
| `TaskState.SignalledAwaitReturns` | src/batteries/async/task_decl.hpp:753-777 | a task suspended in an await goes on in it once its handler was called, whoever has the task meanwhile |
| `TaskState.AwaitEnds` | src/batteries/async/task_decl.hpp:753-777 | a task that goes on in an await returns to its body, and the check of the result passes |
| `TaskState.PendingWasIssued` | src/batteries/async/task_decl.hpp:753-777 | in every run a handler that can be called was handed out by the await and has not been called since |
| `TaskState.OperationsEnd` | src/batteries/async/task_impl.hpp:287-619 | from every reachable state all schedulers, dumpers, registrations and completions under way can come to their ends; only the task's own code may be left running |
| `TaskState.HandlersAreRun` | src/batteries/async/task_decl.hpp:633-653 | once the task is terminal, every handler that was registered at any time can be run by the threads under way, and is then run exactly once |
| `TaskState.DumpAlone` | src/batteries/async/task_impl.hpp:467-540 | a dump left alone gets the stack trace of a task that is suspended, not ready and not being traced, and changes nothing otherwise |
| `QueueOverMutex.NoPanic` | src/batteries/async/queue.hpp:206-216 | whoever lowered the count finds an item, and the ticket loop ends at its own ticket even on out-of-date reports |
| `QueueOverMutex.StepInv` | src/batteries/async/queue.hpp:82-216 | every step keeps: items = pending + inserted but not announced + claimed but not removed; inserted = removed + present; tickets in line |
| `QueueOverMutex.NeverPanics` | src/batteries/async/mutex.hpp:262-275 | in every run no check of the queue or the mutex fails |
| `QueueOverMutex.FirstInFirstOut` | src/batteries/async/queue.hpp:133-216 | in every run items leave in insertion order, none lost, duplicated or invented, and the count equation holds |
| `QueueOverMutex.RemovedIsFirstPart` | src/batteries/async/queue.hpp:206-216 | the histories only grow, and what was removed stays the first part of what was inserted |
| `QueueOverMutex.CountAtRest` | src/batteries/async/queue.hpp:102-105 | with no operation under way the pending count is the number of items |
| `QueueOverMutex.ServedInTicketOrder` | src/batteries/async/mutex.hpp:262-283 | the lock has one holder, and all others in line have later tickets |
| `QueueOverMutex.SomeoneIsServed` | src/batteries/async/mutex.hpp:262-283 | while anyone is in line, the thread whose turn it is holds the lock or gets it by looking |
| `QueueOverMutex.OpenUntilClosed` | src/batteries/async/queue.hpp:30-79 | in every run the queue is open exactly until the first close |
| `QueueOverMutex.PushesAreWhole` | src/batteries/async/queue.hpp:152-171 | in every run what was inserted are the item lists of pushes, each whole and in its given order, nothing in between |
| `QueueOverMutex.PushesAreInserted` | src/batteries/async/queue.hpp:133-171 | in every run these are the pushes started before the close, each once, except those on their way; no push after it |
| `QueueOverMutex.NothingIsLost` | src/batteries/async/queue.hpp:133-216 | with no operation under way, what was taken out followed by what is in the queue are the pushes before the close, in some order |
| `QueueOverMutex.PopsReturnInOrder` | src/batteries/async/queue.hpp:206-216 | in every run what pops return, in the order of their ends, is what was removed, up to the item in the hands of the holder of the lock |
| `QueueOverMutex.PopsTakeOne` | src/batteries/async/queue.hpp:82-115 | in every run each pop that found the count above zero takes out one item, and no other pop does |
| `QueueOverMutex.OperationsEnd` | src/batteries/async/mutex.hpp:262-283 | from every reachable state all operations under way can come to their ends, in a bounded number of steps, without any other being started |
| `GrantPool.StartConserves` | src/batteries/async/grant_impl.hpp:41-58 | starting issue, spend, spend_all, subsume, swap, grow, move or destruction only moves amounts, or adds to the total |
| `GrantPool.ContinueConserves` | src/batteries/async/grant_impl.hpp:97-148 | the later atomic steps of these operations conserve the amount in hand |
| `GrantPool.RunConserves` | src/batteries/async/grant_impl.hpp:15-194 | in every run total = available + grants + in flight + lost, so nothing underflows |
| `GrantPool.StepKept` | src/batteries/async/grant_impl.hpp:97-148 | a careful call loses nothing and keeps the conditions under which nothing can be lost, whatever was moved |
| `GrantPool.CarefulConserves` | src/batteries/async/grant_impl.hpp:66-194 | in every run of careful calls nothing is ever lost: neither overwritten by a swap nor left in a grant without an issuer |
| `GrantPool.DisciplinedConserves` | src/batteries/async/grant_impl.hpp:66-194 | if no grant is swapped with itself or while another operation stores in it, nothing is ever lost |
| `GrantPool.IssuerCheck` | src/batteries/async/grant_impl.hpp:23-27 | with all grants destroyed and nothing under way, the destructor's check holds if and only if nothing was lost; always after careful calls, and without moves always after clear ones |
| `GrantPool.TargetsStayLive` | src/batteries/async/grant_impl.hpp:82-94 | in every run operations under way only store in grants that still live |
| `GrantPool.RequestIsAllOrNothing` | src/batteries/async/grant_impl.hpp:152-194 | a request left alone moves exactly its amount from the pool or grant to a new grant and changes nothing else, or, exactly when it cannot be met, changes nothing at all |
| `GrantPool.ClosedPoolStillIssues` | src/batteries/async/grant_impl.hpp:57-60 | closing does not stop the pool from meeting a request it can meet |
| `GrantPool.ClosedByClose` | src/batteries/async/grant_impl.hpp:57-60 | in every run the pool is closed exactly if a close came before |
| `GrantPool.SubsumeAlone` | src/batteries/async/grant_impl.hpp:135-148 | a subsume left alone moves all of the one grant to the other and changes nothing else |
| `GrantPool.SwapAlone` | src/batteries/async/grant_impl.hpp:97-101 | a swap of two grants left alone exchanges sizes and issuers and changes nothing else |
| `GrantPool.ReturnAlone` | src/batteries/async/grant_impl.hpp:120-131 | what spend_all takes from a grant can be issued again |
| `GrantPool.GrowAlone` | src/batteries/async/grant_impl.hpp:41-53 | growing adds to the total and to what can be issued |
| `GrantPool.MoveAlone` | src/batteries/async/grant_impl.hpp:73-78 | a move hands size and issuer to the new grant and leaves the old one empty without an issuer |
| `GrantPool.DestroyAlone` | src/batteries/async/grant_impl.hpp:82-93 | destroying a grant gives back what it holds, if it has an issuer |
| `GrantPool.OperationsEnd` | src/batteries/async/grant_impl.hpp:89-148 | from every reachable state all operations under way can come to their ends, and then total = available + grants + lost |
| `GrantPool.SelfSwapLoses` | src/batteries/async/grant_impl.hpp:97-101 | from every reachable state, swapping a grant with itself loses exactly its size and changes nothing else |
| `GrantPool.SwapAroundStoreLoses` | src/batteries/async/grant_impl.hpp:97-148 | from every reachable state, swapping with a grant around the store another operation is about to make in it loses exactly what is stored |
| `GrantPool.SwapUnderSwapLoses` | src/batteries/async/grant_impl.hpp:97-101 | from every reachable state, of two swaps with the same second grant the first can lose what it stored there, exactly the size of its first grant |
| `GrantPool.SwapOfSwappedLoses` | src/batteries/async/grant_impl.hpp:97-101 | from every reachable state, swapping a grant that another swap has yet to store in last can lose exactly what the new swap brings |
| `GrantPool.SubsumeUnderSwapLoses` | src/batteries/async/grant_impl.hpp:97-148 | from every reachable state, what is subsumed into a grant that a swap has yet to store in last can be lost, all of it |
| `GrantPool.StepClear` | src/batteries/async/grant_impl.hpp:97-148 | a clear call keeps every last store of a swap from finding anything |
| `GrantPool.ClearCallsOverwriteNothing` | src/batteries/async/grant_impl.hpp:66-194 | in every run of clear calls (no grant swapped with itself, none swapped as second while it is stored in, none swapped as first or subsumed into while it is another swap's second) no swap overwrites anything |
| `GrantPool.UnclearCallCanOverwrite` | src/batteries/async/grant_impl.hpp:66-194 | conversely, in every state reached by clear calls, for every operation that a call gets in the way of there is a continuation in which exactly the amount at risk is overwritten |
| `GrantPool.UnclearMeans` | src/batteries/async/grant_impl.hpp:97-148 | a call is not clear if and only if it gets in the way of some operation |
| `GrantPool.WithoutMoves` | src/batteries/async/grant_impl.hpp:73-78 | in every run without moves every grant keeps its issuer, and nothing is left in one without |
| `GrantPool.ClearConservesWithoutMoves` | src/batteries/async/grant_impl.hpp:66-194 | in every run without moves, clear calls lose nothing |
| `GrantPool.SwapUnderStoreStrands` | src/batteries/async/grant_impl.hpp:97-148 | swapping with a moved-from grant while another operation is about to store can strand exactly what is stored, whatever else is under way |
| `GrantPool.SwapOfEmptiedStrands` | src/batteries/async/grant_impl.hpp:97-101 | swapping a grant that has lost its issuer to a swap under way can strand exactly what it still holds |
| `GrantPool.SwapOfPassedOnStrands` | src/batteries/async/grant_impl.hpp:97-101 | swapping a grant whose content a swap passes on to one without issuer can strand exactly what the new swap brings |
| `GrantPool.SubsumeOfPassedOnStrands` | src/batteries/async/grant_impl.hpp:97-148 | the same for what is subsumed into it |
| `GrantPool.CarelessCallCanStrand` | src/batteries/async/grant_impl.hpp:66-194 | conversely, in every state reached by careful calls, every clear call that is not careful has a continuation that loses exactly the stranded amount, which is positive |
| `Latches.StepInv` | src/batteries/async/latch.hpp:73-129 | every step of setting, polling and waiting keeps the invariant of stage, value and winner |
| `Latches.WrittenOnce` | src/batteries/async/latch.hpp:73-120 | in every run at most one set succeeds, every reader gets its value, and no check fails |
| `Latches.ReadyIsFinal` | src/batteries/async/latch.hpp:73-90 | once ready, a latch stays ready with the same value |
| `Latches.WaiterIsServed` | src/batteries/async/latch.hpp:150-184 | a waiter gets the value once the watch reports the present stage of a ready latch |
| `Latches.FirstSetWins` | src/batteries/async/latch.hpp:73-82 | in every run the latch leaves its initial state with the first set, and the accepted value is that call's value |
| `Latches.ReadersGetTheFirst` | src/batteries/async/latch.hpp:73-129 | in every run whatever is read is the value of the first set |
| `Latches.WinnerPublishes` | src/batteries/async/latch.hpp:79-81 | two steps of the winner make its value known |
| `Latches.PollReads` | src/batteries/async/latch.hpp:104-120 | a poll reads the accepted value of a ready latch, and changes nothing otherwise |
| `ShardReduction.ChildEnd` | src/batteries/state_machine_model.hpp:348-366 | the shard merged under a mask is the one whose lowest bit is that mask, and its range continues the merging shard's |
| `ShardReduction.StepInv` | src/batteries/state_machine_model.hpp:315-370 | every step of every shard keeps: each partial result covers its range of shards once |
| `ShardReduction.ShardZeroHasAll` | src/batteries/state_machine_model.hpp:348-390 | for every shard count and schedule, shard 0 ends with every shard counted once and the union of all visited states |
| `ShardReduction.MergedExactlyOnce` | src/batteries/state_machine_model.hpp:348-366 | every other shard is merged at most once, and exactly once when all are done |
| `ShardReduction.MergedByParent` | src/batteries/state_machine_model.hpp:348-366 | every merge is into the index with the lowest bit cleared, of a shard that is done |
| `ShardReduction.SomeoneCanMove` | src/batteries/state_machine_model.hpp:357-357 | no deadlock: until all shards are done some shard can move |
| `ShardReduction.RunsAreBounded` | src/batteries/state_machine_model.hpp:348-366 | every schedule is finite |
| `ChunkDecoder.RunValid` | src/batteries/pico_http/parser_impl.hpp:626-751 | whatever the input, the decoder stays in a valid state and the chunk size stays below 2^64 |
| `ChunkDecoder.Pow16Max` | src/batteries/pico_http/parser_impl.hpp:646-666 | sixteen hexadecimal digits fit 64 bits |
| `ChunkDecoder.RunSplit` | src/batteries/pico_http/parser_impl.hpp:626-751 | feeding two pieces is feeding their concatenation: bytes, count, state and verdict |
| `ChunkDecoder.SplitInvariant` | src/batteries/pico_http/parser_impl.hpp:626-751 | however a stream is cut up, up to the first verdict the outcome is that of feeding it whole |
| `ChunkDecoder.ReadSize` | src/batteries/pico_http/parser_impl.hpp:646-666 | the size loop follows the byte-at-a-time decoder and never overflows |
| `ChunkDecoder.DecodeChunked` | src/batteries/pico_http/parser_impl.hpp:626-751 | the source's loops produce exactly the byte-at-a-time outcome, of which `ChunkGrammar` states what it is for every input |
| `ChunkEncoder.EncodeHex` | src/batteries/http/http_chunk_encoder.hpp:37-52 | writes the shortest upper-case numeral, at most 16 digits, and nothing before it |
| `ChunkEncoder.WriteHeader` | src/batteries/http/http_chunk_encoder.hpp:78-94 | every chunk header fits its 20-byte buffer |
| `ChunkEncoder.HttpEncodeChunked` | src/batteries/http/http_chunk_encoder.hpp:54-106 | writes the encoding of all fetched chunks and consumes exactly their bytes |
| `ChunkEncoder.DecodeEncode` | src/batteries/pico_http/parser_impl.hpp:626-751 | what decoding the encoder's bytes gives, for every combination of trailer flags |
| `ChunkEncoder.RoundTrip` | src/batteries/http/http_chunk_encoder.hpp:28-106 | decoding returns the concatenated chunks, is done and consumes everything, if and only if there is a chunk and the flags agree |
| `ChunkEncoder.EmptyStreamIsRejected` | src/batteries/http/http_chunk_encoder.hpp:34-35 | the encoding of an empty stream is invalid to the decoder |
| `ChunkGrammar.DigitIsPosition` | src/batteries/pico_http/parser_impl.hpp:605-617 | each digit of either case is decoded to its position in the string of digits |
| `ChunkGrammar.PositionIsDigit` | src/batteries/pico_http/parser_impl.hpp:605-617 | and no other byte is decoded to anything |
| `ChunkGrammar.FirstByteIsDigit` | src/batteries/pico_http/parser_impl.hpp:646-660 | a stream that begins with a byte that is no digit is invalid at once, without consuming anything |
| `ChunkGrammar.TooManyDigits` | src/batteries/pico_http/parser_impl.hpp:661-664 | seventeen digits are invalid, whatever follows |
| `ChunkGrammar.BodyIsDecoded` | src/batteries/pico_http/parser_impl.hpp:626-751 | every body of the grammar (sizes in digits of either case with leading zeros, extensions, any trailer lines) is decoded to the concatenated data, each size being the number its digits denote by their places, and to its last byte, whatever follows |
| `ChunkGrammar.AcceptsTheGrammar` | src/batteries/pico_http/parser_impl.hpp:626-751 | the decoder comes to the end of a body if and only if the input begins with a body of the grammar |
| `ChunkGrammar.FailsAtOnce` | src/batteries/pico_http/parser_impl.hpp:626-751 | it asks for more if and only if the input is the beginning of a body, and fails on every other input |
| `ChunkGrammar.EncodesStrictly` | src/batteries/http/http_chunk_encoder.hpp:31-106 | what the encoder writes of one chunk or more is a body of the strict grammar: upper-case sizes without leading zeros, CRLF after sizes and data, no extensions |
| `HttpChunkDecoding.ConsumeBuffers` | src/batteries/buffer.hpp:118-162 | drops exactly the given number of bytes; its check fails if and only if there are not as many |
| `HttpChunkProgress.NextBuffer` | src/batteries/http/http_chunk_decoder.hpp:89-111 | decoding the next fetched buffer keeps checkpoint, counters and chunks in step with the stream, or comes to the fault with all of the valid output decoded |
| `HttpChunkProgress.OutputBound` | src/batteries/pico_http/parser_impl.hpp:626-751 | every byte of output takes a byte of input, and so does the end of the body |
| `HttpChunkProgress.Enough` | src/batteries/http/http_chunk_decoder.hpp:64-111 | re-decoding past what was seen before covers everything the client has consumed, and goes further |
| `HttpChunkProgress.FaultAgain` | src/batteries/http/http_chunk_decoder.hpp:89-93 | so does coming to a reported fault again |
| `HttpChunkDecoding.HttpChunkDecoder.Consume` | src/batteries/http/http_chunk_decoder.hpp:120-129 | consuming exposed bytes keeps the object in step with the stream; after a fault, consuming the last of them makes it start over |
| `HttpChunkDecoding.HttpChunkDecoder.ReleaseDecodedChunks` | src/batteries/http/http_chunk_decoder.hpp:140-153 | drops exactly the source bytes counted as decoded and moves the checkpoint to the latest decoder; after a fault that decoder stands at the fault while the source stands before the faulty buffer |
| `HttpChunkDecoding.HttpChunkDecoder.DecodeFetched` | src/batteries/http/http_chunk_decoder.hpp:76-111 | whatever the buffers, decoding again leaves exactly the output of decoding their concatenation from the checkpoint less what was consumed, makes progress or leaves the decoder at the fault, and can fall short of what was consumed only after a reported fault |
| `HttpChunkProgress.Exposes` | src/batteries/http/http_chunk_decoder.hpp:50-153 | the bytes on offer are the next ones of the one-shot decoding, and no source byte past the end of the body is looked at or consumed |
| `HttpChunkDecoding.HttpChunkDecoder.FetchAtLeast` | src/batteries/http/http_chunk_decoder.hpp:50-115 | after any history of calls, reported faults included, and for any answers of the source: data is a stretch of the one-shot decoding from the first unconsumed byte; the end means that fewer than the requested bytes are left; closed is reported if and only if the source is short of what the request makes the decoder ask for, and then even a complete body has fewer bytes left than requested; a fault is reported only if the body has one, and the rest of the valid output is then handed out without touching the source; the check fails if and only if decoding the source's answer from the checkpoint gives less than was consumed; a source error is returned only if the source's last answer was one |
| `HttpChunkProgress.ShortMeans` | src/batteries/http/http_chunk_decoder.hpp:64-73 | when the source is short, fewer than the requested bytes are left, and of a complete body one fewer still |
| `HttpChunkProgress.StopsOnlyIfBroken` | src/batteries/http/http_chunk_decoder.hpp:56-80 | a round of the fetching loop ends in a source error only if the answer to it was one |
| `HttpChunkProgress.DataWhenLeft` | src/batteries/http/http_chunk_decoder.hpp:50-115 | if the source does not break and is not short, a request is met with data if and only if so many decoded bytes are left |
| `HttpChunkProgress.ShortOfOne` | src/batteries/http/http_chunk_decoder.hpp:64-73 | when the source is short of a single byte the body is truncated and all of it was decoded |
| `HttpChunkDecoding.ReadAll` | src/batteries/http/http_chunk_decoder.hpp:50-129 | a client that reads to the end in any portions gets exactly the one-shot decoding, also of a truncated body, and before a fault nothing else; from a source that never breaks it ends with the end of the stream for a complete body, closed for a truncated one, and an error for a faulty one |
| `HttpChunkDecoding.ReadPastFault` | src/batteries/http/http_chunk_decoder.hpp:93-153 | a client that goes on after a fault gets the rest of the valid bytes, and then a decoder that reads the faulty buffer once more in the state at the fault |
| `HttpChunkDecoding.AskForTooMuch` | src/batteries/http/http_chunk_decoder.hpp:64-73 | a new decoder asked for more bytes than its source has reports closed, however complete the body |
| `HttpChunkFaults.ReadAgainAndAgain` | src/batteries/http/http_chunk_decoder.hpp:76-153 | if a stream that arrives in one buffer comes to its fault in the state its decoding began in, the same bytes are handed out any number of times |
| `HttpChunkFaults.FaultAfterChunks` | src/batteries/pico_http/parser_impl.hpp:626-670 | every encoding of chunks followed by a byte that cannot begin a chunk size is such a stream |
| `HttpChunkFaults.CanWrap` | src/batteries/http/http_chunk_decoder.hpp:64-67 | some answer of the source decodes to less than was consumed if and only if the source has the bytes it is asked for and these do |
| `HttpChunkFaults.AskAgainAfterFault` | src/batteries/http/http_chunk_decoder.hpp:56-114 | for every chunk of two bytes or more, a client that has consumed part of it when the fault is reported and asks again makes the check fail |
| `HttpParser.ScanByEights` | src/batteries/pico_http/parser_impl.hpp:166-193 | the eight-at-a-time scan skips only what the plain scan skips |
| `HttpParser.GetTokenToEol` | src/batteries/pico_http/parser_impl.hpp:147-220 | the fast scan and its remainder give what the plain scan gives |
| `HttpParser.ParseHeaders` | src/batteries/pico_http/parser_impl.hpp:326-385 | the header loop returns the headers, folded lines included, or the failure code, as specified; `MessageGrammar.HeadersGrammar` and `MessageVerdicts.HeadersVerdict` state what that is for every input |
| `HttpParser.RequestParse` | src/batteries/pico_http/parser_impl.hpp:388-473 | the source's steps compute the specified verdict on a request; `MessageGrammar.RequestGrammar` and `MessageVerdicts.RequestVerdict` state what that is for every input |
| `HttpParser.ResponseParse` | src/batteries/pico_http/parser_impl.hpp:480-565 | the source's steps compute the specified verdict on a response; `MessageGrammar.ResponseGrammar` and `MessageVerdicts.ResponseVerdict` state what that is for every input |
| `HttpParser.HeadersStable` | src/batteries/pico_http/parser_impl.hpp:326-385 | a verdict on headers is unchanged by appended bytes, and acceptance depends on no later byte |
| `HttpParser.RequestStable` | src/batteries/pico_http/parser_impl.hpp:388-473 | the same for requests |
| `HttpParser.ResponseStable` | src/batteries/pico_http/parser_impl.hpp:480-565 | the same for responses |
| `HttpParser.RequestAccepted` | src/batteries/pico_http/parser_impl.hpp:447-473 | an accepted request is incomplete before its last byte arrives and accepted with the same fields from then on |
| `HttpParser.ResponseAccepted` | src/batteries/pico_http/parser_impl.hpp:539-565 | the same for responses |
| `HttpParser.PrintedHeaders` | src/batteries/pico_http/parser_impl.hpp:767-782 | parsing printed headers gives them back exactly when each has a name, and otherwise fails |
| `HttpParser.RequestParsed` | src/batteries/pico_http/parser_impl.hpp:388-473 | the fields of an accepted request have the shape the grammar demands |
| `HttpParser.RequestRoundTrip` | src/batteries/pico_http/parser_impl.hpp:784-788 | parsing a printed request returns it and its exact length, if and only if the request is well formed |
| `HttpParser.ResponseRoundTrip` | src/batteries/pico_http/parser_impl.hpp:792-797 | parsing a printed response returns it and its exact length, if and only if the response is well formed |
| `MessageGrammar.TablesAre` | src/batteries/pico_http/parser_impl.hpp:106-114 | every byte: it is a token byte if and only if it is a digit, a letter or one of the fifteen symbols of section 3.2.6 of RFC 7230, a path byte if and only if it is visible or above 127, and a line byte if and only if it is one of those or a blank |
| `MessageGrammar.HeadersGrammar` | src/batteries/pico_http/parser_impl.hpp:326-385 | headers are accepted if and only if the input begins with headers of a grammar that does not mention the parser: bare LF or CRLF, blanks around values, folded lines after the first; names and trimmed values are delivered |
| `MessageGrammar.RequestGrammar` | src/batteries/pico_http/parser_impl.hpp:388-439 | a request is accepted if and only if the input begins with one of the grammar: perhaps an empty line, any number of spaces between fields, a version 1.x; its fields and its length are delivered |
| `MessageGrammar.ResponseGrammar` | src/batteries/pico_http/parser_impl.hpp:480-533 | a response is accepted if and only if the input begins with one of the grammar, with or without a message; its fields, the status as a number, and its length are delivered |
| `MessageGrammar.RequestIsPrinted` | src/batteries/pico_http/parser_impl.hpp:784-788 | a well-formed request is printed strictly by the grammar: single spaces, CRLF everywhere |
| `MessageGrammar.ResponseIsPrinted` | src/batteries/pico_http/parser_impl.hpp:792-797 | the same for responses |
| `MessageVerdicts.HeadersVerdict` | src/batteries/pico_http/parser_impl.hpp:326-385 | headers are incomplete if and only if they are the beginning of headers of the grammar |
| `MessageVerdicts.RequestVerdict` | src/batteries/pico_http/parser_impl.hpp:388-439 | a request is incomplete if and only if it is the beginning of one of the grammar, or lacks its verb while the spaces after the path are not over, or has fewer than nine bytes in the place of its version; what is neither that nor accepted is malformed |
| `MessageVerdicts.ResponseVerdict` | src/batteries/pico_http/parser_impl.hpp:480-533 | a response is incomplete if and only if it is the beginning of one of the grammar, or has fewer than nine bytes, or fewer than four in the place of its status, or garbage after the status in a line that has not ended |
| `EarlyExit.IsComplete` | src/batteries/pico_http/parser_impl.hpp:222-250 | the loop looks for two line ends in a row, from three bytes before the new ones on |
| `EarlyExit.RequestLooksComplete` | src/batteries/pico_http/parser_impl.hpp:222-250 | a request that was incomplete and is accepted with more bytes passes that look, however the bytes arrived |
| `EarlyExit.RequestLooksMalformed` | src/batteries/pico_http/parser_impl.hpp:222-250 | one that the look finds malformed is not accepted whatever follows |
| `EarlyExit.ResponseLooksComplete` | src/batteries/pico_http/parser_impl.hpp:222-250 | the same for responses |
| `EarlyExit.ResponseLooksMalformed` | src/batteries/pico_http/parser_impl.hpp:222-250 | the same for responses |
| `EarlyExit.RequestParseAgain` | src/batteries/pico_http/parser_impl.hpp:447-473 | parsing again with the length of an incomplete attempt accepts exactly what parsing anew accepts, with the same result, and finds nothing malformed that could still be accepted |
| `EarlyExit.ResponseParseAgain` | src/batteries/pico_http/parser_impl.hpp:539-565 | the same for responses |
| `StreamBuffers.GetBuffersIs` | src/batteries/async/stream_buffer_impl.hpp:178-200 | the one or two pieces hold exactly the requested stretch of the stream, in order |
| `StreamBuffers.FirstHolds` | src/batteries/async/stream_buffer_impl.hpp:131-149 | the temporary-buffer fix-up keeps the content and gives the first piece at least the minimum; so many bytes are copied exactly if the first piece would be too short |
| `StreamBuffers.StreamBuffer.PrepareExactly` | src/batteries/async/stream_buffer_impl.hpp:52-64 | prepared space is free even if the consumer's position was observed late; space is given exactly if there is enough as far as observed, and otherwise the call is closed or waits as the stream is closed for reading or not |
| `StreamBuffers.StreamBuffer.PrepareAtLeast` | src/batteries/async/stream_buffer_impl.hpp:68-80 | the same, for all the space there is |
| `StreamBuffers.StreamBuffer.WriteByte` | src/batteries/async/stream_buffer_impl.hpp:91-103 | writing in prepared space changes that byte of it and no unread byte |
| `StreamBuffers.StreamBuffer.NoOverlap` | src/batteries/async/stream_buffer_impl.hpp:52-80 | prepared and unread positions have different slots |
| `StreamBuffers.StreamBuffer.Commit` | src/batteries/async/stream_buffer_impl.hpp:84-87 | committed bytes are appended to the stream as they were written |
| `StreamBuffers.StreamBuffer.WriteAll` | src/batteries/async/stream_buffer_impl.hpp:91-103 | commits the data in order, whatever the consumer does in between, all of it unless the ring is full; then it is closed or waits as the stream is closed for reading or not |
| `StreamBuffers.StreamBuffer.FetchAtLeast` | src/batteries/async/stream_buffer_impl.hpp:114-151 | returns all unread bytes of the stream, also after it was closed for writing, with the first piece long enough; a stream that is short of the minimum is at its end exactly if it is closed for writing |
| `StreamBuffers.StreamBuffer.ReadByte` | src/batteries/async/stream_buffer_impl.hpp:114-151 | a fetched byte is the committed one whatever the producer has done since |
| `StreamBuffers.StreamBuffer.Consume` | src/batteries/async/stream_buffer_impl.hpp:155-158 | consuming moves on along the stream and keeps 0 <= commit - consume <= capacity |
| `StreamBuffers.Interleave` | src/batteries/async/stream_buffer_impl.hpp:52-173 | for every interleaving of producer and consumer calls, both closes and late observations included, the bytes taken are exactly the consumed stretch of the committed stream, and 0 <= commit - consume <= capacity |
| `StreamBuffers.NewStream` | src/batteries/async/stream_buffer_impl.hpp:14-20 | from a new buffer the bytes taken are a prefix of the bytes committed |
| `RadixQueues.EncodeCons` | src/batteries/radix_queue.hpp:137-153 | division and remainder take off the least significant digit |
| `RadixQueues.PushHolds` | src/batteries/radix_queue.hpp:119-133 | pushing appends to the pending items whichever segment takes the item; segments fit 64 bits and a segment that is not alone has radix at least 2 |
| `RadixQueues.OverflowMeans` | src/batteries/radix_queue.hpp:119-133 | a new segment is started exactly if the product of the radices would not fit 64 bits |
| `RadixQueues.PopHolds` | src/batteries/radix_queue.hpp:137-153 | popping with the oldest item's radix returns its value, passes both checks and leaves the rest, radix 1 included |
| `RadixQueues.PlaysFifo` | src/batteries/radix_queue.hpp:119-153 | on every legal run the pops return the pushed values in order |
| `RadixQueues.EqualQueuesAgree` | src/batteries/radix_queue.hpp:73-89 | queues with equal segments give the same results on every later legal run, whatever their histories |
| `RadixQueues.EmptyMeans` | src/batteries/radix_queue.hpp:96-99 | empty holds exactly when only items of radix 1 are pending |
| `RadixQueues.SamePendingMayDiffer` | src/batteries/radix_queue.hpp:73-89 | two runs from the empty queue, for all items whose radices overflow as described, that leave the same items pending in unequal queues |
| `RadixQueues.RadixQueue.Push` | src/batteries/radix_queue.hpp:119-133 | the ring refines the push of segments within 64 bits, and appends to the pending items |
| `RadixQueues.RadixQueue.Pop` | src/batteries/radix_queue.hpp:137-153 | the ring refines the pop of segments and returns the oldest pending value |
| `RadixQueues.RadixQueue.Equals` | src/batteries/radix_queue.hpp:73-89 | compares the segments front to back, wherever they are in the two rings |
| `RadixQueues.RadixQueue.FullMeans` | src/batteries/radix_queue.hpp:103-106 | full holds exactly when every slot has a segment |
| `RadixQueues.RadixQueue.EmptyIs` | src/batteries/radix_queue.hpp:96-99 | empty on the ring holds exactly when only items of radix 1 are pending |
| `RadixQueues.RadixQueue.Clear` | src/batteries/radix_queue.hpp:110-115 | leaves nothing pending in one blank segment |
| `ParallelMerge.MergeMultiset` | src/batteries/algo/parallel_merge.hpp:136-141 | the sequential merge is a permutation of its inputs |
| `ParallelMerge.MergeSorted` | src/batteries/algo/parallel_merge.hpp:136-141 | it is sorted, for every strict weak order |
| `ParallelMerge.MergeStable` | src/batteries/algo/parallel_merge.hpp:136-141 | each equivalence class keeps its order, those of the first range first |
| `ParallelMerge.MergeSplit` | src/batteries/algo/parallel_merge.hpp:165-258 | merging separated parts one after the other is merging the whole |
| `ParallelMerge.CutSeparates` | src/batteries/algo/parallel_merge.hpp:184-226 | a cut at the end of an equivalence group and at its lower bound separates the ranges, so no class is split |
| `ParallelMerge.ShardEnd` | src/batteries/algo/parallel_merge.hpp:187-200 | the shard end is moved to the end of its equivalence group, and no further |
| `ParallelMerge.SearchRange` | src/batteries/algo/parallel_merge.hpp:214-226 | the two lower bounds delimit the search range that belongs to the shard |
| `ParallelMerge.Fanout` | src/batteries/algo/parallel_merge.hpp:165-258 | the shards of a phase together are the merge, tile its destination, and are ordered |
| `ParallelMerge.Impl` | src/batteries/algo/parallel_merge.hpp:108-160 | all base-case jobs of the three phases together write the stable merge, each position once; a task count is only needed where ranges are cut up; of two ranges that are not empty, every job has at most min_task_size elements in all, or at most its share of each range but for ties, a share being any number that covers the range when multiplied by half the tasks, and is at least half of min_task_size |
| `ParallelMerge.Execute` | src/batteries/algo/parallel_merge.hpp:248-252 | performing the writes in any order gives the same destination |
| `ParallelMerge.Run` | src/batteries/algo/parallel_merge.hpp:108-258 | for every task size and count and any order of the writes, the destination gets exactly the stable sequential merge and nothing else changes |
| `SliceWork.PlanIsValid` | src/batteries/async/slice_work.hpp:74-86 | tasks are at least the minimum size, at most the maximum number, no bigger than that takes, and cover the input with none empty |
| `SliceWork.SliceInput` | src/batteries/async/slice_work.hpp:120-149 | the loop makes exactly the planned number of tasks, and they tile the input |
| `RunningTotals.RunningTotal.constructor` | src/batteries/algo/running_total.hpp:119-139 | the layout, with the leading zeros written |
| `RunningTotals.RunningTotal.FillPart` | src/batteries/algo/parallel_running_total.hpp:50-74 | a task fills its own part with the running totals of its slice and touches nothing else |
| `RunningTotals.RunningTotal.UpdateSummary` | src/batteries/algo/running_total.hpp:189-206 | the summary becomes the running total of the parts' last entries |
| `RunningTotals.FinishedEntry` | src/batteries/algo/running_total.hpp:171-177 | summary plus part is the prefix sum, also where the summary's leading zero is read as a part |
| `RunningTotals.ParallelRunningTotal` | src/batteries/algo/parallel_running_total.hpp:32-83 | for every input, slicing and order of tasks, entry i is the sum of the first i values, modulo 2^64 |
| `ParallelAccumulate.FoldAllPartials` | src/batteries/algo/parallel_accumulate.hpp:26-62 | folding the partial results is folding the input |
| `ParallelAccumulate.AccumulateInParallel` | src/batteries/algo/parallel_accumulate.hpp:66-104 | for every associative operation with a left identity, input, slicing and order of tasks: the sequential fold; the recursion ends |
| `KMerge.FrontIsLeast` | src/batteries/seq/kmerge.hpp:29-38 | nothing in the heap comes before its front |
| `KMerge.PushHeap` | src/batteries/seq/kmerge.hpp:94-99 | the last entry joins the heap; same entries |
| `KMerge.PopHeap` | src/batteries/seq/kmerge.hpp:87-90 | the front goes to the back and the rest is a heap |
| `KMerge.Restore` | src/batteries/seq/kmerge.hpp:87-99 | a sequence whose first item changed outside the heap rejoins it, or leaves it when exhausted |
| `KMerge.KMergeBy.Next` | src/batteries/seq/kmerge.hpp:77-102 | removes and returns an item that nothing left comes before, the one peek shows |
| `KMerge.KMergeBy.Peek` | src/batteries/seq/kmerge.hpp:104-110 | shows the item that next would return, or that nothing is left |
| `KMerge.Collect` | src/batteries/seq/kmerge.hpp:77-102 | taking items until none is left gives a sorted permutation of all inputs |

## Left out

- Memory order: all atomic accesses are sequentially consistent, as the source's defaults are; plain fields are accessed at the places where the protocol allows it.
- Waiting: a wait is a step that may be given any value the watched variable has had; how a waiting task is resumed is the business of `WatchAtomic` and `TaskState`, which are modelled on their own.
- Fairness: progress is stated as "some thread can move" or "letting these threads go on suffices", not as a claim about the scheduler.
- Task sleep timer, `wake`, priorities, stack allocation and the executor: a posted activation is a token that some thread may take up; a continuation is an ownership token.
- A task that is preempted inside the function passed to await, before that function has passed its handler on, is modelled for safety only; nobody is then obliged to signal it.
- Watches of types that are not primitive integers use a mutex instead of the protocol modelled here.
- 64-bit counters of tickets, pending items, grant sizes, stream positions and task sizes are unbounded; the chunk size, the radix segments and the running totals have their real width.
- Queue: `pop_next_or_panic` called directly, without lowering the count first, is outside the protocol.
- Grant: one issuer; swapping the two issuer pointers and emptying the second grant are taken as one step; closing a grant affects only the code of a failed request, which is not modelled.
- Latch: `invalidate`, which is for testing.
- HttpChunkDecoder: `close_for_read`; and the counters' own width, except that a size below zero wraps around to more than any request.
- HttpParser: the SSE path, and the fields left behind by a parse that fails.
- WriteAll: where the source's call waits for space, the model returns and would be called again with the rest.
- StreamBuffer: `async_` variants and the typed read and write helpers.
- ParallelMerge, RunningTotal and ParallelAccumulate: worker threads; tasks or their writes happen in any order, and touch disjoint places.
- ShardReduction: the exploration of each shard; combining results is union.
- KMerge: copying a merge, and the library's own heap routines, for which a sift-up and a sift-down stand in.
- Channels, most sequence adapters, `PrependBufferSource`, rate limiting, backoff, HTTP client and server, protobuf streams, metrics, logging, type erasure and static dispatch: plumbing or members that would be easy.
