# ctx, modelled in Dafny

`ctx` is a C++ runtime for stackful coroutines ("operations"). Its scheduler creates
operations with increasing ids and posts them to one of two lanes: the reactor (IO) or the
runner's work stack (WORK). An operation runs on a stack taken from an intrusive free list.
It can suspend itself on a condition variable, for example while it waits for a future. An
`access_scheduler`, and the `controller` of the locking example, admit operations to a
shared resource under a reader/writer rule. Around this sit a blocking LIFO stack, a
topic-tagged channel with listeners, an operation tracker, operation ids, and two example
programs (Fibonacci and quicksort).

This project models the sequential core of each of those pieces:

- Each critical section (the code between a lock and its unlock) is one atomic method.
- Each blocking wait is either the method's precondition, or an explicit "queued and
  suspended" outcome that the caller retries by calling again.
- The context switch into and out of a fiber is an abstract step. `Operation.Resume` runs up
  to the switch; `Operation.ResumeAfterSwitch` runs from it, given what the fiber passed back.
- Addresses are integers and 0 is the null pointer.
- Hook calls to the payload's `transition` member are recorded as a sequence, and so are the
  tasks posted to the lanes.
- User callables are opaque tokens. What one does when it runs is a parameter: an `Effect`
  for a work task, an `answer` function for a channel callback, an `outcome` for the
  function that `post` wraps.

Modules:

| module | models |
|---|---|
| `OpIds` | `op_id`: constructors, comparison by index, unsigned wrap-around |
| `StackManagement` | `stack_handle` arithmetic, `allocate`, the free list `node`, `stack_manager` |
| `Fibers` | the operation lifecycle, the scheduler's id counter and posting, `condition_variable` |
| `Futures` | `future` (value and `void`), `await_all`, the `post`/`post_void` wrappers |
| `Admission` | the reader/writer admission rule, as values, with the mutual-exclusion proof |
| `AccessScheduling` | `access_scheduler` |
| `Locking` | `controller` of the locking example and its shared Fibonacci vector |
| `Lifo` | the order in which a stack with its top at the end hands out elements |
| `Runners` | `runner`'s work stack, `execute_work_tasks`, `stop`, `reset` |
| `ConcurrentStacks` | `concurrent_stack` |
| `Channels` | `channel`, its topics and its listeners |
| `OpTracking` | `op_tracker` |
| `FibonacciExample` | `iterfib`, `recfib_sync`, `recfib_async`, `recfib`, `check` |
| `QuickSort` | the quicksort example with its two `std::partition` calls |

In these places the model follows what the code does, not what its comments and names suggest:

- A blocked writer is queued on `read_queue_`, so nothing ever enters `write_queue_`. This
  holds in `access_scheduler` and in the example's `controller`.
- When `init`'s `bad_alloc` escapes `resume`, `running_` stays set (`Operation.Resume`
  returns `Err` with `running` true).
- `recfib_async` and `recfib` obtain their children's results through futures. The model
  uses the values those children return.

## Model

| member | source | states |
|---|---|---|
| OpIds.Successor | include/ctx/scheduler.h:23 | `++next_id_` on an `unsigned`: the next value below 2^32, and 0 after 2^32 - 1 |
| OpIds.Less | include/ctx/op_id.h:17-19 | `<` never relates an id to itself, and no id is less than one the scheduler has not numbered (index 0) |
| OpIds.Default | include/ctx/op_id.h:8 | the defaulted constructor leaves the parent index 0 and gives the least id: no id compares below it |
| OpIds.FromSite | include/ctx/op_id.h:9-10 | the one-argument constructor uses the creation site as the name, has parent index 0, and compares equal to the default id |
| OpIds.Make | include/ctx/op_id.h:11-15 | the three-argument constructor stores name, site and parent index, with a negative `int` wrapped into the `unsigned` member, and compares equal to the default id |
| OpIds.Equal | include/ctx/op_id.h:21-23 | two ids are equal exactly when neither is less than the other |
| OpIds.UnnumberedIdsAreEqual | include/ctx/op_id.h:8-23 | ids from any of the three constructors are all equal to one another until the scheduler numbers them, whatever their names, sites and parents |
| OpIds.LessIsStrictWeakOrder | include/ctx/op_id.h:17-19 | `<` is irreflexive and transitive, and its incomparability (`==`) is transitive and compatible with it |
| OpIds.ComparisonIgnoresAllButIndex | include/ctx/op_id.h:17-23 | name, creation site and parent index never change the result of `<` or `==` |
| StackManagement.GetAllocatedMem | include/ctx/stack_manager.h:20-22 | the block address is null exactly when `get_stack()` is, and lies `kStackSize` below it otherwise |
| StackManagement.HandleRoundTrip | include/ctx/stack_manager.h:18-32 | every well-formed handle is rebuilt by `stack_handle(get_allocated_mem())`, so `get_stack` and `get_allocated_mem` determine each other |
| StackManagement.GetStackEnd | include/ctx/stack_manager.h:30-32 | the low end of a block is null exactly for the null handle, and lies `kStackSize` below the stack top otherwise |
| StackManagement.NullHandle | include/ctx/stack_manager.h:17 | the default handle has null stack, stack end and allocated memory |
| StackManagement.FromAllocatedMem | include/ctx/stack_manager.h:18-26 | round trip: a handle built from block `mem` gives back `mem`, its stack is `mem + kStackSize`, and a null block gives the null handle (also src/stack_manager.cc:9-23) |
| StackManagement.Allocate | include/ctx/stack_manager.h:42-48 | fails with `bad_alloc` exactly when `malloc` returns null, otherwise returns that block (also src/stack_manager.cc:25-31) |
| StackManagement.FreeList.constructor | include/ctx/stack_manager.h:89 | the free list starts empty |
| StackManagement.FreeList.Take | include/ctx/stack_manager.h:78-83 | on a non-empty list, returns exactly the head and unlinks it, keeping the rest of the chain (also src/stack_manager.cc:67-72) |
| StackManagement.FreeList.Push | include/ctx/stack_manager.h:84-88 | the block becomes the head, in front of the unchanged old list, its link word now holding the old head (also src/stack_manager.cc:74-78) |
| StackManagement.PushThenTake | src/stack_manager.cc:67-78 | a push followed by a take returns the same block and restores the list |
| StackManagement.StackManager.constructor | include/ctx/stack_manager.h:90 | a new manager has an empty free list |
| StackManagement.StackManager.Alloc | include/ctx/stack_manager.h:51-66 | LIFO reuse: with a non-empty list, the most recently freed block is returned and removed; with an empty list, a fresh block or `bad_alloc`, and the list is left unchanged (also src/stack_manager.cc:39-56) |
| StackManagement.StackManager.Dealloc | include/ctx/stack_manager.h:68-75 | the handle's block is pushed on the head and the other blocks stay in order (also src/stack_manager.cc:58-65) |
| StackManagement.StackManager.Drain | src/stack_manager.cc:33-37 | the destructor frees every listed block, head first, and ends with an empty list |
| Fibers.IdsFromCount | include/ctx/impl/scheduler.h:54-59 | from a counter at `n`, the next `k` ids are `n+1, ..., n+k` until the counter wraps; from a new scheduler they are 1, 2, 3, ... |
| Fibers.Scheduler.constructor | include/ctx/impl/scheduler.h:12-14 | the counter starts at 0 and nothing is posted |
| Fibers.Scheduler.NextOpId | include/ctx/scheduler.h:23 | the counter advances by one (modulo 2^32), and the new value is returned |
| Fibers.Scheduler.EnqueueOn | include/ctx/scheduler.h:37-41 | `enqueue_io(op)`/`enqueue_work(op)` post exactly one resume of `op` on the named lane |
| Fibers.Scheduler.Enqueue | include/ctx/impl/scheduler.h:62-65 | `enqueue(op)` posts exactly one resume of `op` on the reactor lane and changes nothing else |
| Fibers.Scheduler.EnqueueNew | include/ctx/impl/scheduler.h:54-60 | the id gets the next counter value as its index, and a new unstarted operation with that id, data and body is posted once |
| Fibers.Operation.constructor | include/ctx/impl/operation.h:28-44 | a new operation is not running, not rescheduled, not finished, and has a null stack |
| Fibers.IsNull | include/ctx/impl/operation.h:18-26 | the overload for data held by value always answers false; the pointer overload answers true exactly for `nullptr` |
| Fibers.Operation.Hook | include/ctx/impl/operation.h:96-99 | a hook call is made exactly when the data is not a null pointer (data held by value never is), and it names this operation, the kind and the callee |
| Fibers.Operation.OnTransition | include/ctx/impl/operation.h:95-100 | appends that hook call, or nothing for null data; no flag changes |
| Fibers.Operation.Resume | include/ctx/impl/operation.h:103-124 | finished: returns and changes nothing; running: only sets `reschedule_`, so the fiber is never entered twice; otherwise sets `running_` and reports ACTIVATE; only when it has no stack does it take one, and then it gets the free-list head (which leaves the list) or, from an empty list, the `malloc` block or `bad_alloc` |
| Fibers.Operation.Init | include/ctx/impl/operation.h:155-160 | the stack comes from the manager: the free-list head, which is unlinked; from an empty list the `malloc` block, list unchanged, or `bad_alloc` when `malloc` fails |
| Fibers.Operation.ResumeAfterSwitch | include/ctx/impl/operation.h:128-136 | a pending reschedule re-posts the operation exactly once and is cleared; `finished_` takes the switch result; `running_` is cleared |
| Fibers.Operation.Suspend | include/ctx/impl/operation.h:139-147 | reports FIN when finishing and DEACTIVATE otherwise, and holds a self-reference only when not finishing |
| Fibers.Operation.Start | include/ctx/impl/operation.h:149-153 | runs the body, then reports FIN and drops the self-reference |
| Fibers.Operation.Destroy | include/ctx/impl/operation.h:46-49 | corrected destructor: an allocated stack goes back to the head of the free list; with no stack the list is untouched |
| Fibers.DestructorAsWritten | include/ctx/impl/operation.h:46-49 | the destructor as written faults exactly when the handle is null, and otherwise pushes the block |
| Fibers.UnresumedOperationDestructorFaults | include/ctx/impl/operation.h:28-49 | a freshly constructed operation, destroyed with no resume, makes the destructor as written dereference null, whatever its data, body, scheduler, id and free list |
| Fibers.ConditionVariable.constructor | include/ctx/impl/condition_variable.h:7-19 | binds to the running operation, or to nothing when none runs |
| Fibers.ConditionVariable.Wait | include/ctx/impl/condition_variable.h:29-34 | requires a live bound operation and suspends it with `finished == false` (DEACTIVATE, self-reference kept) |
| Fibers.ConditionVariable.WaitUntil | include/ctx/impl/condition_variable.h:21-27 | suspends once per false evaluation before the first true one, and never when the predicate already holds |
| Fibers.ConditionVariable.Notify | include/ctx/impl/condition_variable.h:36-42 | re-posts the bound operation on the work lane, never the IO lane; does nothing once it has expired |
| Futures.Future.constructor | include/ctx/future.h:19 | a new future is unavailable, holds no exception, and binds its condition variable to the current operation |
| Futures.Future.Stored | include/ctx/future.h:27-30 | what an available future hands back: a rethrow exactly when an exception is stored |
| Futures.Future.Val | include/ctx/future.h:21-31 | an available future does not wait or change, so repeated calls give the same value or the same exception; otherwise SUSPEND names the callee and the caller is suspended |
| Futures.Future.ContinueVal | include/ctx/future.h:24-30 | the wait loop suspends again while unavailable, and once available reports RESUME and returns the stored result |
| Futures.Future.Set | include/ctx/future.h:33-37 | stores the value, marks the result available, counts one set, and notifies the bound operation (`void`: 68-71) |
| Futures.Future.SetException | include/ctx/future.h:39-43 | stores the exception, marks the result available, and notifies (`void`: 73-77) |
| Futures.FirstRaised | include/ctx/future.h:88-103 | no exception exactly when every slot is empty; otherwise the first exception in vector order |
| Futures.AwaitAll | include/ctx/future.h:88-103 | awaits every future, including those after a failure, and ends with exactly the first exception in vector order |
| Futures.Post | include/ctx/impl/scheduler.h:16-33 | returns an unset future at once, and posts one operation whose body is the wrapper, under the next id |
| Futures.RunPostWrapper | include/ctx/impl/scheduler.h:21-30 | sets the future exactly once: with `fn`'s value on a normal return, with the captured exception when it throws (`post_void`: 39-49) |
| Admission.Enter | include/ctx/access_scheduler.h:39-79 | a start succeeds exactly when the rule admits it, and the gate stays exclusive |
| Admission.Leave | include/ctx/access_scheduler.h:55-89 | an end keeps the gate exclusive, and ending a write clears the flag |
| Admission.Step | include/ctx/access_scheduler.h:23-37 | one guard construction or destruction keeps the gate accounting exactly for the guards held |
| Admission.RunKeepsExclusion | include/ctx/access_scheduler.h:44-78 | mutual exclusion: for any run with balanced end calls, an active writer is alone and `write_active_` implies `read_count_ == 0` |
| Admission.GuardRestoresGate | include/ctx/access_scheduler.h:23-37 | a guard that is admitted and then destroyed restores the gate and the held guards exactly |
| AccessScheduling.GuardAsWritten | include/ctx/access_scheduler.h:99-127 | NONE is unguarded and every other access gets a guard |
| AccessScheduling.IntendedGuard | include/ctx/access_scheduler.h:129-147 | the corrected mapping: NONE is unguarded, READ gets a `read` guard, WRITE a `write` guard |
| AccessScheduling.WriteTasksShareTheResourceAsWritten | include/ctx/access_scheduler.h:117-121 | as written, two WRITE tasks on a free scheduler are both admitted |
| AccessScheduling.IntendedWriteTaskIsAlone | include/ctx/access_scheduler.h:65-79 | with the corrected mapping, no READ or WRITE task is admitted while a WRITE task is inside |
| AccessScheduling.AccessScheduler.constructor | include/ctx/access_scheduler.h:249-253 | count 0, no writer, both queues empty |
| AccessScheduling.AccessScheduler.StartRead | include/ctx/access_scheduler.h:39-53 | counts a reader exactly when no writer is active; otherwise queues `(lane, op)` on `read_queue_` and suspends it, changing neither counter |
| AccessScheduling.AccessScheduler.StartWrite | include/ctx/access_scheduler.h:65-79 | sets the flag exactly when there is neither writer nor reader; otherwise queues on `read_queue_` (never `write_queue_`) and suspends |
| AccessScheduling.AccessScheduler.EndRead | include/ctx/access_scheduler.h:55-63 | one reader fewer; wakes the writer-queue head only when the count reached 0 and that queue is not empty, otherwise the reader-queue head if any |
| AccessScheduling.AccessScheduler.EndWrite | include/ctx/access_scheduler.h:81-89 | clears the flag and wakes at most one entry, the writer queue first |
| AccessScheduling.AccessScheduler.Unqueue | include/ctx/access_scheduler.h:91-96 | re-posts the front entry on its recorded lane and removes only it, keeping the rest in order |
| AccessScheduling.AccessScheduler.Enqueue | include/ctx/access_scheduler.h:99-127 | posts one new operation on the chosen lane, unguarded for NONE and otherwise under the guard as written, which differs from the intended one |
| AccessScheduling.AccessScheduler.EnqueueGuarded | include/ctx/access_scheduler.h:129-207 | `enqueue_read_*`/`enqueue_write_*` post `fn` under the named guard on the named lane |
| Locking.Controller.constructor | example/locking.cc:24 | count 0, no writer, both queues empty, a fresh scheduler |
| Locking.Controller.StartRead | example/locking.cc:26-40 | admits exactly when no writer is active; otherwise pushes the operation on `read_queue_` and suspends it |
| Locking.Controller.StartWrite | example/locking.cc:52-66 | admits exactly when there is neither writer nor reader; a blocked writer is pushed on `read_queue_` as well |
| Locking.Controller.EndRead | example/locking.cc:42-50 | wakes the writer-queue head only when the reader count drops to 0, otherwise the reader-queue head if present |
| Locking.Controller.EndWrite | example/locking.cc:68-76 | clears the flag and wakes at most one operation, the writer queue first |
| Locking.Controller.Unqueue | example/locking.cc:78-81 | re-posts exactly the front operation on the reactor lane and erases only it |
| Locking.Controller.EnqueueRead | example/locking.cc:85-93 | posts `fn` inside a `read` guard, with the non-null controller as its data |
| Locking.Controller.EnqueueWrite | example/locking.cc:95-103 | posts `fn` inside a `write` guard |
| Locking.Series.constructor | example/locking.cc:114 | `{1, 1}` is a Fibonacci vector |
| Locking.Series.WriteOp | example/locking.cc:129-131 | appends the wrapped sum of the last two entries, so the vector stays a Fibonacci sequence modulo 2^64 |
| Lifo.PopOrder | include/ctx/runner.h:17-26 | successive pops hand out the last element first and the first element last |
| Lifo.BottomComesLast | include/ctx/concurrent_stack.h:48-53 | an element put at the bottom is handed out after everything already present |
| Runners.WorkStack.Pop | include/ctx/runner.h:17-26 | nothing from an empty stack, which stays empty; otherwise the most recently pushed task, removed |
| Runners.WorkStack.Push | include/ctx/runner.h:28-32 | the task becomes the top, and the stack grows by one |
| Runners.WorkStack.Clear | include/ctx/runner.h:34-37 | the stack becomes empty |
| Runners.Drain | include/ctx/runner.h:59-67 | a drain runs nothing when stopped or empty; otherwise it runs the top task first, and ends stopped, empty or out of budget |
| Runners.QuietTasksRunInPopOrder | include/ctx/runner.h:59-67 | tasks that post nothing and do not stop all run, in LIFO order, until the stack is empty |
| Runners.StoppingTaskRunsLast | include/ctx/runner.h:59-61 | after a task calls `stop()`, no further task runs |
| Runners.Runner.constructor | include/ctx/runner.h:43 | an empty work stack, not stopped |
| Runners.Runner.Reset | include/ctx/runner.h:53-57 | clears the work stack and `stop_` |
| Runners.Runner.Stop | include/ctx/runner.h:79-82 | sets `stop_` and leaves the work stack alone |
| Runners.Runner.PostWorkTask | include/ctx/runner.h:69-72 | pushes the task on the work stack |
| Runners.Runner.RunTask | include/ctx/runner.h:61 | running a task pushes the work it posts, in order, and sets `stop_` if it stops |
| Runners.Runner.ExecuteWorkTasks | include/ctx/runner.h:59-67 | the tasks run and the final stack and flag are exactly those of `Drain` |
| ConcurrentStacks.ConcurrentStack.constructor | include/ctx/concurrent_stack.h:64-65 | empty, not stopped |
| ConcurrentStacks.ConcurrentStack.Stop | include/ctx/concurrent_stack.h:12-16 | sets the flag; the data stay |
| ConcurrentStacks.ConcurrentStack.Poll | include/ctx/concurrent_stack.h:18-29 | once the wait is over: nothing exactly when stopped and empty; otherwise the back element, removed, and the size drops by one |
| ConcurrentStacks.ConcurrentStack.Size | include/ctx/concurrent_stack.h:31-34 | the number of elements successive polls hand out, zero exactly when empty; `Push`/`PushBottom` add one and a successful `Poll` removes one |
| ConcurrentStacks.ConcurrentStack.Reset | include/ctx/concurrent_stack.h:36-39 | clears the flag without touching the data |
| ConcurrentStacks.ConcurrentStack.Push | include/ctx/concurrent_stack.h:41-46 | appends at the back, so the element is polled first; the size grows by one |
| ConcurrentStacks.ConcurrentStack.PushBottom | include/ctx/concurrent_stack.h:48-53 | inserts at the front, so the element is polled after everything already present; the size grows by one |
| ConcurrentStacks.ConcurrentStack.GetAndRemoveTop | include/ctx/concurrent_stack.h:56-60 | returns and erases the back element, which is the next in pop order |
| Channels.FirstMatch | include/ctx/channel.h:150-151 | the first listener whose topic is `any` or the element's; none before it matches |
| Channels.Offer | include/ctx/channel.h:149-159 | an element is consumed exactly when some listener matches; a listener is removed exactly when the first match's callback answers true, and then it is that listener alone |
| Channels.OfferAddsNoListener | include/ctx/channel.h:150-155 | offering an element only ever removes a listener, never adds one |
| Channels.Dispatch | include/ctx/channel.h:135-146 | telling the listeners never makes the queue longer |
| Channels.DispatchFilters | include/ctx/channel.h:135-146 | the kept elements are a subsequence of the queue in its order; every element no listener matches is kept, so every erased element matched one; the remaining listeners all come from the original ones |
| Channels.NoListenersKeepQueue | include/ctx/channel.h:136 | with no listeners the queue is unchanged |
| Channels.PersistentCatchAllEmptiesQueue | include/ctx/channel.h:138-145 | a listener on `any` whose callback keeps answering false consumes every element |
| Channels.Channel.constructor | include/ctx/channel.h:119-120 | a new channel with the given capacity is empty and not stopped |
| Channels.Channel.Unbounded | include/ctx/channel.h:119-120 | the default capacity is `numeric_limits<size_t>::max()` |
| Channels.Channel.NextData | include/ctx/channel.h:84-102 | the last element whatever the topic (LIFO), or the end when empty |
| Channels.Channel.Ready | include/ctx/channel.h:41-44 | ready exactly when data is available or the channel is stopped |
| Channels.Channel.Receive | include/ctx/channel.h:46-62 | fails exactly when stopped and empty; otherwise removes the last element and returns it, and the size drops by one |
| Channels.Channel.Send | include/ctx/channel.h:64-82 | fails without adding exactly when stopped; otherwise appends `(topic, value)` and tells the listeners; the size grows by at most one, and by exactly one without listeners |
| Channels.Channel.Listen | include/ctx/channel.h:108-112 | registers the listener, then tells all listeners |
| Channels.Channel.Stop | include/ctx/channel.h:124-128 | sets the flag; queue and listeners stay |
| Channels.Channel.Size | include/ctx/channel.h:130-133 | the number of queued elements, zero exactly when no topic has data available |
| Channels.Channel.DataAvailable | include/ctx/channel.h:106 | `is_data_available` holds exactly when the queue is non-empty, whatever the topic |
| Channels.Channel.TellListeners | include/ctx/channel.h:135-146 | the queue and listeners end as `Dispatch` says, and with no listeners the queue is unchanged |
| Channels.Channel.TellListener | include/ctx/channel.h:149-159 | the private overload's result and listener list are those of `Offer` |
| OpTracking.StatusToString | include/ctx/op_tracker.h:45-53 | the four states have their names, and every other value is UNKNOWN |
| OpTracking.StatusNamesDistinct | include/ctx/op_tracker.h:45-53 | distinct states print differently, except unknown values |
| OpTracking.Apply | include/ctx/op_tracker.h:58-63 | a non-finished entry sets the caller's state and callee, overwriting but keeping the stored key; a finished entry erases the caller; no other caller changes |
| OpTracking.UnmentionedKeepsStatus | include/ctx/op_tracker.h:58-64 | a caller that no logged entry mentions keeps its status through compaction |
| OpTracking.LastEntryDecides | include/ctx/op_tracker.h:58-64 | entries are consumed in queue order, so the last entry about a caller decides its status |
| OpTracking.OpTracker.constructor | include/ctx/op_tracker.h:18 | an empty log and status table |
| OpTracking.OpTracker.Log | include/ctx/op_tracker.h:25-31 | appends the entry and advances the counter; compacts exactly when the counter exceeds `kMaxQueueSize`, and never resets it |
| OpTracking.OpTracker.CompactLog | include/ctx/op_tracker.h:55-65 | consumes the whole log in queue order into the table and leaves the counter alone |
| FibonacciExample.FibFromAgrees | example/fibonacci.cc:23-31 | the loop keeps `(i, j) = (fib(c), fib(c+1))`, so `n` steps from `(fib(k), fib(k+1))` reach `fib(k+n)` |
| FibonacciExample.RecFibSync | example/fibonacci.cc:34-43 | the reference recursion: positive from 1 on, and at least `i - 1` from 2 on, so it eventually leaves `int` |
| FibonacciExample.FibMonotone | example/fibonacci.cc:34-43 | `recfib_sync` never decreases |
| FibonacciExample.Fib46 | example/fibonacci.cc:66 | fib(46) is 1836311903 |
| FibonacciExample.FibFitsInInt32 | example/fibonacci.cc:66-71 | no `int` overflow for every count up to 46, which covers `kCount = 40` |
| FibonacciExample.IterFib | example/fibonacci.cc:15-32 | `iterfib(count) == recfib_sync(count)` for every count from 0 to 46, with 0 and 1 as the base cases (the same function is at include/test/fibonacci.h:9-26) |
| FibonacciExample.RecFibAsync | example/fibonacci.cc:45-52 | for any threshold (20 here, 2 for include/test/fibonacci.h:28-39), the child recursion returns `recfib_sync(i)` |
| FibonacciExample.Check | example/fibonacci.cc:55-63 | reports a match exactly when `expected` is fib(n) (also include/test/fibonacci.h:41-49) |
| FibonacciExample.ExpectedValues | example/fibonacci.cc:68-71 | the table of `iterfib(i)` holds fib(i), so every check `main` posts matches |
| QuickSort.Partition | example/quicksort.cc:12-15 | `std::partition`: the satisfying elements come first, the range is rearranged, and nothing outside it changes |
| QuickSort.PartitionBelow | example/quicksort.cc:12-13 | after the first partition, `[first, mid1)` is below the pivot and `[mid1, last)` is not |
| QuickSort.PartitionNotAbove | example/quicksort.cc:14-15 | after the second partition, `[mid1, mid2)` is not above the pivot and `[mid2, last)` is above it |
| QuickSort.PivotBetween | example/quicksort.cc:11-15 | the middle element lies in `[mid1, mid2)`, so that range is not empty |
| QuickSort.PartitionAround | example/quicksort.cc:11-15 | `[mid1, mid2)` is non-empty and all pivot, so both recursive ranges are strictly shorter |
| QuickSort.Quicksort | example/quicksort.cc:6-19 | an empty range is left alone; otherwise the range ends sorted and a permutation of itself, and nothing outside it changes |

## Left out

- The context switch (`jump_fcontext`, `make_fcontext`), `me()`, and the ASAN and valgrind hooks are foreign, architecture-specific calls. The switch is the step between `Fibers.Operation.Resume` and `Fibers.Operation.ResumeAfterSwitch`.
- Mutexes, atomics and threads are not modelled. Each critical section is one atomic method.
- A blocking wait is a precondition: `Channels.Channel.Receive` needs `ready()`, `Channels.Channel.Send` needs room, `ConcurrentStacks.ConcurrentStack.Poll` needs `stop_ || !data_.empty()`.
- A refused `start_read`/`start_write` returns `admitted == false`. The `goto` retry is the caller calling again once woken.
- The `boost::asio` reactor, `runner::run`, `post_io_task`, and the `ios_.stop()`/`ios_.reset()` calls in `stop`/`reset` are library I/O. Posting to a lane is recorded in `Scheduler.posted`.
- `scheduler::run` is not modelled. It forwards to `runner::run`, which is library I/O, and the two disagree on its argument.
- `scheduler.h` declares `post_io`, `post_void_io`, `post_work` and `post_void_work`, which the files shown never define. The `post_*_io`/`post_*_work` helpers of `access_scheduler` call them, so they are not modelled. `Futures.Post` models the `post`/`post_void` that are defined.
- `enqueue(data, fn, id)` ends in `return id;` inside a `void` function. The model returns nothing of it.
- `post` makes its future with `make_shared<future>()`, but `future` has no default constructor. The model gives it a default `op_id` as callee.
- User functions and callbacks are tokens. Their effects are parameters. The locking example's `read_op` only sums and prints, and `controller::transition` is empty, so neither is modelled.
- `op_tracker::print_status` is printf output.
- The lock-free log queue of `op_tracker` is a plain sequence, and its preallocated capacity is not modelled.
- `log_size_` is never initialised by `op_tracker`'s constructor. Its first value is a constructor parameter.
- `maybe_deref` is not modelled: the payload's own `transition` member is outside the model, and only the call to it is recorded.
- The thread-local `this_op` that `get_caller` and `current_op` read is passed explicitly as `current`.
- `shared_ptr`/`weak_ptr` reference counts are reduced to two flags: `destroyed` (the last owner is gone) and `holdsSelf` (the `self` that `suspend` keeps).
- The channel's condition-variable notifications are not modelled. The commented-out topic search in `next_data` is not modelled either.
- The order of elements inside each part of `std::partition` is unspecified. `QuickSort.Partition` is one algorithm that meets the postcondition. The quicksort sorts `int` arrays rather than arbitrary forward iterators.
- FibonacciExample.IterFib: requires `count <= 46`, since larger counts overflow `int`, which is undefined behaviour.
- FibonacciExample.RecFibAsync: modelled on natural numbers. A negative argument makes the source recurse without end.
- FibonacciExample.RecFibSync, FibonacciExample.RecFibAsync and FibonacciExample.Check: computed on unbounded naturals. In the source the `int` sums overflow, which is undefined behaviour, from `i = 47` on. `FibonacciExample.FibFitsInInt32` proves that no overflow happens up to 46, which covers the `i < 40` that `main` uses.
- Admission.Leave: requires a reader to be inside for an end of read, so an unbalanced `end_read`, which would wrap `read_count_` around, is excluded. The same precondition is on `AccessScheduling.AccessScheduler.EndRead` and `Locking.Controller.EndRead`.
- Runners.Runner.ExecuteWorkTasks: runs at most `budget` tasks, since tasks may post work without end. With a budget larger than the number of tasks, the drain ends only stopped or empty.
- Futures.AwaitAll: takes futures that are already set. Waiting for one that is not is `Futures.Future.Val` and `Futures.Future.ContinueVal`.
- StackManagement.StackManager.Dealloc: requires the block to be non-null and not already on the list, because `node::push` writes through the block and a second push would corrupt the list. The null case is the first finding below.
- Locking.Series.WriteOp: requires at least two entries, because the source reads `data[size - 2]`.
- `access_scheduler` derives from `scheduler`. Here it holds the scheduler as a field `sched`.

## Findings

| source | as written | input that shows it | evidently intended | confidence | as-written member | corrected member |
|---|---|---|---|---|---|---|
| include/ctx/impl/operation.h:46-49 | `~operation` always calls `dealloc(stack_)`, and `node::push` stores the old head in the first word of `get_allocated_mem()` | an operation destroyed before its first `resume`, such as one still queued when the reactor is torn down: `stack_` is the null handle, so the push writes through `nullptr` | return the stack to the manager only when one was allocated | medium; not executed | Fibers.UnresumedOperationDestructorFaults | Fibers.Operation.Destroy |
| include/ctx/access_scheduler.h:107-125 | `enqueue` wraps a READ task in a `write` guard and a WRITE task in a `read` guard | two `enqueue(..., access_t::WRITE)` tasks on a free scheduler: both are admitted and modify the resource together | READ under `read` and WRITE under `write`, as `enqueue_read_io`/`enqueue_write_io` (lines 129-147) and the locking example do | high; not executed | AccessScheduling.WriteTasksShareTheResourceAsWritten | AccessScheduling.IntendedWriteTaskIsAlone |
