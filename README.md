# Timed parallel scheduler of kcp-go, modelled in Dafny

kcp-go's `TimedSched` runs callbacks at or after a deadline. `Put` appends
a task (callback plus absolute deadline) to a shared buffer and signals a
one-slot notification channel. A single relay loop (`prepend`) wakes on that
signal, copies the buffer into its reused scratch slice, truncates the
buffer and hands the tasks one by one to the worker loops (`sched`). Each
worker keeps a private binary heap ordered by deadline and a wake timer:
a task that is already late runs at once, any other is queued, and when
the timer fires the worker runs every overdue task at the root of its heap
and re-arms the timer for the next one. `Close` closes the shutdown channel
exactly once.

The model has three modules:

- `TaskHeap` (`heap.dfy`): the task record, the deadline order, the heap
  slice `TimedFuncHeap` with its five primitives as a class over a `seq`
  field, and the generic push/pop routines (sift-up and sift-down) as
  imperative methods over it.
- `WorkerLoop` (`worker.dfy`): one worker as a class whose two `select`
  cases are the methods `OnTask` and `OnTimer`. Time is an integer clock
  reading passed in as `now`. The timer is `Idle` or `Armed(setAt, delay)`.
  Running a callback appends a `Run(task, at)` to the worker's log. A ghost
  multiset `received` records every task handed to the worker, so "nothing
  lost, nothing run twice" is the invariant
  `received == executed + pending`.
- `Scheduler` (`sched.dfy`): the scheduler state shared by `Put`, the
  relay and `Close`. The buffer is a `seq` plus its capacity. The relay's
  scratch slice is an `array` plus a length. Handing a task to a worker
  appends it to `handedOff`. The notification channel is a flag, and the
  shutdown channel is the `dieOnce`/`dieClosed` pair.

The scheduler's invariant `TimedSched.Valid` includes the no-lost-wake-up
property: while the buffer holds tasks, a notification is pending. This is
why `Put` may drop its signal when the one-slot channel is already full.

One might expect two further properties that the code does not have; a
concrete scenario method witnesses each:

- One might expect the wake timer to fire no later than the earliest
  pending deadline. It is re-armed on arrival only when the heap goes from
  empty to one task, so a later task with an earlier deadline does not move
  it (`LateWakeExample`).
- One might expect every callback of a worker to run in non-decreasing
  deadline order. That holds within one timer fire only: a task that
  reaches a worker late runs inline after tasks with later deadlines
  (`LateArrivalExample`).

## Model

| member | source | states |
|---|---|---|
| TaskHeap.BeforeIsStrictOrder | timedsched.go:22 | the time-stamp order is irreflexive, asymmetric and transitive; equal deadlines are unordered both ways; different deadlines are always ordered |
| TaskHeap.RootIsEarliest | timedsched.go:79-82 | in a heap-ordered prefix the root's deadline is no later than that of any element of the prefix |
| TaskHeap.RootIsMinimum | timedsched.go:81-82 | no task held in a heap is strictly before the root, which is what the drain examines |
| TaskHeap.TimedFuncHeap.constructor | timedsched.go:62 | a worker's heap starts as the empty (nil) slice |
| TaskHeap.TimedFuncHeap.Len | timedsched.go:21 | the length of the slice; zero exactly for the empty slice |
| TaskHeap.TimedFuncHeap.Less | timedsched.go:22 | true exactly when element i's deadline is strictly before element j's, so ties are never less |
| TaskHeap.TimedFuncHeap.Swap | timedsched.go:23 | exchanges elements i and j and nothing else; the contents as a multiset are kept |
| TaskHeap.TimedFuncHeap.Push | timedsched.go:24 | the slice becomes the old slice with the task appended at the end |
| TaskHeap.TimedFuncHeap.Pop | timedsched.go:25-31 | on a non-empty slice, returns the last element and leaves the prefix without it; the multiset loses exactly that element |
| TaskHeap.Up | timedsched.go:72 | sift-up of the generic push, with the parent of index 0 taken as 0: from a heap broken only at the new element it restores heap order, keeping length and contents |
| TaskHeap.Down | timedsched.go:82 | sift-down of the generic pop within the first n elements, choosing the earlier child and stopping on ties: restores heap order there, leaves the tail untouched and keeps the contents |
| TaskHeap.HeapPush | timedsched.go:72 | pushing onto a heap yields a heap one longer that holds exactly the old tasks plus the new one |
| TaskHeap.HeapPop | timedsched.go:82 | popping a non-empty heap returns its old root, which no pending task is strictly before, and leaves a heap of the remaining tasks |
| WorkerLoop.RunKeepsConsistent | timedsched.go:68-70 | running an overdue arrival inline keeps the worker invariant: heap, timer and log unchanged otherwise, the task counted as executed |
| WorkerLoop.QueueKeepsConsistent | timedsched.go:71-76 | queuing a task that is not overdue keeps the worker invariant, with the timer armed for it exactly when the heap was empty before |
| WorkerLoop.DrainStep | timedsched.go:80-82 | popping and running an overdue root keeps the drain invariant: runs sorted by deadline, all overdue, none later than anything pending, runs plus heap equal the tasks pending at the fire |
| WorkerLoop.DrainEnd | timedsched.go:78-87 | when the drain stops, the worker invariant holds again with the runs appended to the log, the timer idle for an empty heap or armed for the root, and no pending task overdue |
| WorkerLoop.LateRunsAppended | timedsched.go:81-82 | appending runs at `now` of tasks overdue at `now` keeps every logged callback strictly after its deadline |
| WorkerLoop.RunsAtTime | timedsched.go:80-82 | every run recorded by one drain happened at that drain's clock reading and is one of the drained tasks |
| WorkerLoop.Worker.constructor | timedsched.go:61-63 | a worker starts with an empty heap, an idle timer, an empty log and nothing received |
| WorkerLoop.Worker.OnTask | timedsched.go:66-77 | a task strictly past its deadline runs at once with heap and timer unchanged; any other task, even one due exactly now, is added to the heap, and the timer is set to deadline minus now only when the heap was empty before; the worker invariant is kept |
| WorkerLoop.Worker.OnTimer | timedsched.go:78-87 | a fire runs exactly the tasks overdue at `now`, in non-decreasing deadline order, drawn from the heap with nothing lost or duplicated; afterwards no pending task is overdue, and the timer is idle for an empty heap or armed for the earliest remaining deadline minus now |
| WorkerLoop.Worker.DrainDue | timedsched.go:79-87 | the drain loop: while the heap is non-empty, pop and run an overdue root, else arm the timer for the root and stop; its log grows by exactly the runs of the drained tasks |
| WorkerLoop.LateWakeExample | timedsched.go:72-76 | tasks with deadlines 100 then 10 arriving at 0 leave the timer firing at 100 while the earliest pending deadline is 10 |
| WorkerLoop.LateArrivalExample | timedsched.go:66-87 | a task due at 30 runs on the fire at 31, then a task due at 20 arriving at 40 runs inline after it: deadline order holds within one fire only |
| Scheduler.TimedSched.constructor | timedsched.go:48-59 | a new scheduler has an empty buffer, no pending notification and shutdown not requested |
| Scheduler.TimedSched.Put | timedsched.go:124-133 | appends exactly one task with deadline now plus duration at the end of the buffer, keeps or grows its capacity, and leaves one notification pending whether or not one already was, so the no-lost-wake-up invariant is kept |
| Scheduler.TimedSched.RelayWake | timedsched.go:98-116 | consumes the notification, copies the exact buffer contents in order into a scratch slice whose capacity is at least the buffer's, empties the buffer keeping its capacity, then hands the tasks off in index order and resets the scratch length, unless shutdown wins the first hand-off |
| Scheduler.TimedSched.HandOff | timedsched.go:109-116 | the hand-off loop sends the scratch tasks in index order and resets the scratch length to zero; with shutdown requested it returns before sending any |
| Scheduler.TimedSched.RelayShutdown | timedsched.go:117-118 | the relay returns on shutdown; its frame is the relay's liveness flag alone, so buffer, capacity, notification, scratch slice and shutdown state are unchanged |
| Scheduler.TimedSched.Close | timedsched.go:136 | shutdown is requested once; a second close changes nothing, so the shutdown channel is never closed twice |
| Scheduler.CoalescedDrainExample | timedsched.go:124-133 | two submissions leave a single pending notification, and the one relay wake-up it causes hands off both tasks in submission order |
| Scheduler.CloseTwiceExample | timedsched.go:136 | closing twice is harmless, and a task submitted after shutdown stays in the buffer |

## Left out

- Goroutines, channels and `select`: each `select` case is a method the environment calls. When both cases of a `select` are ready the choice is made by the caller's sequence of calls. The relay's hand-off `select` resolves to shutdown whenever the die channel is closed.
- The mutex around the buffer: each of `Put` and the relay's locked section is one atomic method.
- Wall-clock time: `time.Now()` becomes a parameter `now`. A drain reads the clock once, where the source reads it on every iteration. Durations and deadlines are unbounded integers, so 64-bit nanosecond overflow is not modelled.
- The timer's internals: the initial `time.NewTimer(0)` is an idle timer, so its immediate spurious fire on an empty heap (a no-op) is not modelled. `OnTimer` requires the clock to have reached the armed time. A fire that races with a `Reset` is not modelled.
- Callbacks: a callback is an opaque id, and running it appends to a log. Callback panics and callbacks that call back into the scheduler are not modelled.
- Which worker receives a task: `handedOff` records the relay's sends. The channel between relay and workers, and the distribution over workers, are not modelled.
- The worker's shutdown case (lines 88-89) just returns and drops its pending tasks; this is not modelled as a method.
- `NewTimedSched` starting `parallel` goroutines, and the package-level `SystemTimedSched` with `runtime.NumCPU()`: not modelled beyond the constructors.
- The source of the generic `container/heap` package is not reproduced. `Up`, `Down`, `HeapPush` and `HeapPop` follow its `up`, `down`, `Push` and `Pop` over the five primitives.
- Go's `append` growth policy: a full buffer's capacity is modelled as going from 0 to 1 and then doubling. Only "the capacity never shrinks" is relied on.
- Scheduler.TimedSched.Put: does not model the deadline as a wall-clock instant. `now + duration` is exact integer arithmetic.
- WorkerLoop.Worker.OnTimer: states deadline order and lateness per fire only. Across events the log is not sorted (`LateArrivalExample`), and the timer need not fire by the earliest pending deadline (`LateWakeExample`).
