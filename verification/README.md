# SafeQueue: a verified model of a bounded ring-buffer FIFO of points

The repository's core is `SafeQueue`, a bounded, mutex-protected FIFO of 2-D points
(`src/lib/safeQueue.c`), and a small terminal demo (`src/main.c`) in which a "fly" takes
destinations from such a queue. This project models, in Dafny:

- the queue as a circular buffer of `N + 1` slots with a write index `wp` and a read index
  `rp`, where one slot always stays empty so that `wp == rp` means empty and
  `next(wp) == rp` means full (`RingBuffer`);
- the queue's public C interface, including the NULL-queue guards, creation failure, the
  NULL output pointers of pop, and the deadline and final check of the timed wait
  (`SafeQueue`);
- the same queue as an in-place object with an array, two indices and a ghost sequence of
  contents under a `Valid()` invariant, each method proved to perform the value-level
  transition (`SafeQueueImpl`);
- the abstract behaviour it all refines: a FIFO of capacity `N` that rejects when full or
  empty (`BoundedFifo`), with proofs that every push, pop and any sequence of them on the
  ring does what the abstract FIFO does;
- the integer time arithmetic: the `timespec` of `mSleep` and the absolute deadline built in
  `SafeQueueWait` and `pthread_cond_timedwait_msec` (`TimeArith`), with C's truncating `/`
  and `%` written out;
- the character `drawScreen` prints at each cell and the frame it prints (`Screen`);
- `FlySetDestination` and `FlyWaitForSetDestination` over the queue model (`Fly`).

Each queue operation is one atomic step, as each runs wholly under the queue's mutex.
Coordinates are kept as the 64-bit patterns of the doubles (`bv64`): the queue only copies
them, so a pop returning the pushed point means returning it bit for bit.

A NULL `SafeQueue *` is the handle `None`. `SafeQueueCreate`'s allocation outcome is the
parameter `mallocOk`, and the unspecified content of freshly allocated slots is the parameter
`junk`. `SafeQueueWait` takes the wall-clock reading `now` as a parameter and is evaluated on
the queue as it stands when its wait loop exits. `TimeArith.Deadline` is the one definition of
the deadline computation that `src/lib/safeQueue.c:196-203` and `src/main.c:40-46` both
perform. `TimeArith.SleepInterval` is likewise the `mSleep` of `src/main.c:28-33`, of the
identical static copy at `src/lib/safeQueue.c:37-42` and of `src/queueTest.c:14-19`.

Points where the code does less than one might expect; the model follows the code:

- `SafeQueuePush` does not signal the condition variable (`src/lib/safeQueue.c:135-155`), so
  a waiter is not woken by a push. The model never relies on a wake-up: `Wait` only reports
  whether the queue holds data when its loop exits.
- In `drawScreen` the fly loop stops at the first fly at the cell even if its mark is NUL;
  the cell then shows the border rule, and later flies at that cell are not shown
  (`Screen.NulMarkShowsBorder`). With non-NUL marks, the first fly in list order wins
  (`Screen.FirstFlyWins`), and the top and bottom rows win over the side columns, so corners
  are `'-'`.
- A negative timeout gives a deadline whose nanosecond field can be negative
  (`TimeArith.NegativeTimeoutLeavesNegativeNanos`). `pthread_cond_timedwait` rejects such a
  value. When the queue is empty, so that the wait loop runs, `SafeQueueWait` then takes its
  fatal-error exit; on a non-empty queue the loop is skipped and it returns 1 normally. The
  program itself only passes 100 ms.

## Model

| member | source | states |
|---|---|---|
| RingBuffer.Next | src/lib/safeQueue.c:139-142 | advancing an index with the subtract-on-overflow wrap gives `(i + 1) mod size`, always a valid index |
| RingBuffer.Count | src/lib/safeQueue.c:102-113 | the two-branch occupancy equals `(wp - rp) mod size`, equals the number of queued points, and never exceeds the capacity `size - 1` |
| RingBuffer.FreeCount | src/lib/safeQueue.c:121-125 | free count plus the number of queued points is the capacity |
| RingBuffer.FullIffNextMeetsRead | src/lib/safeQueue.c:139-146 | the push's full test `next(wp) == rp` holds exactly when the queue holds capacity many points |
| RingBuffer.EmptyIffIndicesMeet | src/lib/safeQueue.c:169-172 | the pop's empty test `rp == wp` holds exactly when the queue holds no point |
| RingBuffer.Init | src/lib/safeQueue.c:57-63 | a new ring has `N + 1` slots, capacity `N`, both indices 0 and no contents |
| RingBuffer.Push | src/lib/safeQueue.c:138-154 | push fails, changing nothing, exactly when the queue is full; otherwise it stores the point at the old `wp`, appends it to the contents, advances `wp` with wrap, leaves `rp` and every other slot alone |
| RingBuffer.Pop | src/lib/safeQueue.c:168-182 | pop fails, changing nothing, exactly when the queue is empty; otherwise it delivers the head, removes it, advances `rp` with wrap and leaves the array and `wp` alone |
| RingBuffer.PushRefines | src/lib/safeQueue.c:135-155 | push on the ring is enqueue on the abstract bounded FIFO: same result queue, same success flag |
| RingBuffer.PopRefines | src/lib/safeQueue.c:165-183 | pop on the ring is dequeue on the abstract bounded FIFO: same result queue, same delivered point |
| RingBuffer.Run | src/lib/safeQueue.c:102-183 | any sequence of pushes and pops keeps the invariant and the slot count, and occupancy plus free count stays the capacity |
| RingBuffer.RunRefines | src/lib/safeQueue.c:135-183 | any sequence of pushes and pops on the ring ends in the abstract FIFO's queue and delivers the same points in the same order |
| SafeQueue.Create | src/lib/safeQueue.c:50-68 | NULL exactly for size 0 or a failed allocation; otherwise `size + 1` slots, both indices 0, no contents, reported size `size` |
| SafeQueue.GetSize | src/lib/safeQueue.c:90-94 | 0 for NULL, else one less than the slot count |
| SafeQueue.GetCount | src/lib/safeQueue.c:102-113 | 0 for NULL, else the number of queued points, at most the size |
| SafeQueue.GetFreeCount | src/lib/safeQueue.c:121-125 | 0 for NULL, else size minus the number of queued points |
| SafeQueue.Push | src/lib/safeQueue.c:135-155 | 1 exactly for a non-NULL queue with room, appending `(x, y)` at the tail and leaving `rp`; otherwise 0 with nothing changed; the size never changes |
| SafeQueue.Pop | src/lib/safeQueue.c:165-183 | 1 exactly when the queue holds a point: the head is removed, and copied through each non-NULL output; otherwise 0 with queue and outputs untouched |
| SafeQueue.Wait | src/lib/safeQueue.c:193-217 | NULL returns 0 without a deadline; otherwise the result is 1 exactly when the queue is non-empty at exit, and the deadline lies `msec * 1e6` ns after `now`, normalised for `msec >= 0` |
| SafeQueue.RunKeepsAccounting | src/lib/safeQueue.c:90-125 | after any sequence of pushes and pops the size is unchanged, a NULL queue stays NULL, and count plus free count equals the size |
| SafeQueue.CreateGivesEmptyQueue | src/lib/safeQueue.c:50-68 | creating with 0 gives NULL; creating with `N >= 1` gives size `N`, count 0, free count `N` |
| SafeQueue.PopFreshFails | src/lib/safeQueue.c:165-172 | popping a freshly created queue fails and the count stays 0 |
| SafeQueue.PushThenPop | src/lib/safeQueue.c:135-183 | on an empty queue, a push succeeds and the next pop returns status 1 with exactly the pushed coordinates, leaving it empty |
| SafeQueue.FullRejectsPush | src/lib/safeQueue.c:139-146 | after `N` pushes into a fresh queue of size `N` it holds those points, count is `N`, and a further push returns 0 and changes nothing |
| SafeQueue.FifoOrder | src/lib/safeQueue.c:135-183 | pushing up to `N` points into a fresh queue and popping as many times delivers them in push order |
| SafeQueue.RunRefines | src/lib/safeQueue.c:135-183 | the contents of a non-NULL queue after any pushes and pops are those of the abstract FIFO after the same operations |
| SafeQueueImpl.Create | src/lib/safeQueue.c:50-68 | on the in-place object, NULL exactly for size 0 or a failed allocation; otherwise a fresh valid object with a freshly allocated array of `size + 1` slots and no contents |
| SafeQueueImpl.Queue.GetSize | src/lib/safeQueue.c:90-94 | on the in-place object, the reported size is the capacity, one less than the array length |
| SafeQueueImpl.Queue.GetCount | src/lib/safeQueue.c:102-113 | on the in-place object, the two-branch count equals the length of the ghost contents and is below the slot count |
| SafeQueueImpl.Queue.GetFreeCount | src/lib/safeQueue.c:121-125 | on the in-place object, free count plus the length of the contents is the slot count minus one |
| SafeQueueImpl.Queue.Push | src/lib/safeQueue.c:135-155 | the in-place push performs exactly the value-level push on the array and indices and appends to the ghost contents on success |
| SafeQueueImpl.Queue.Pop | src/lib/safeQueue.c:165-183 | the in-place pop performs exactly the value-level pop, drops the head of the ghost contents and copies it to the supplied outputs on success |
| SafeQueueImpl.Queue.HasData | src/lib/safeQueue.c:214 | the wait's final test `wp != rp` yields 1 exactly when the ghost contents are non-empty, else 0 |
| TimeArith.WholeSeconds | src/main.c:30 | C's `msec / 1000` truncates toward zero: the quotient times 1000 lies between 0 and `msec`, less than 1000 away from it |
| TimeArith.LeftoverMillis | src/main.c:30-31 | C's `msec % 1000` pairs with the truncated `msec / 1000` to rebuild `msec`, lies strictly between -1000 and 1000, and equals the mathematical remainder for `msec >= 0` |
| TimeArith.SleepInterval | src/main.c:28-33 | the interval is exactly `msec` ms; its nanoseconds fit in an `int`; for `msec >= 0` they are `(msec mod 1000) * 1e6 < 1e9` and `tv_sec * 1000 + tv_nsec / 1e6 == msec` |
| TimeArith.Deadline | src/lib/safeQueue.c:196-203 | the deadline lies exactly `msec * 1e6` ns after `now`; for `msec >= 0` and normalised `now` a single carry keeps nanoseconds in `[0, 1e9)` |
| TimeArith.NegativeTimeoutLeavesNegativeNanos | src/main.c:40-47 | with a negative timeout the deadline's nanoseconds can be negative, outside what `pthread_cond_timedwait` accepts |
| Screen.FirstFlyAtFrom | src/main.c:206-211 | the fly loop finds the first fly in list order at the cell, or reports that no fly is there |
| Screen.CellChar | src/main.c:204-220 | the first fly at the cell with a non-NUL mark shows that mark; a first fly with a NUL mark, or no fly, gives the border character; the cell is never NUL and is always the border character or the mark of a fly there |
| Screen.FirstFlyWins | src/main.c:205-213 | the mark of the first fly at a cell is drawn there, over any border character |
| Screen.NulMarkShowsBorder | src/main.c:205-213 | if that first fly's mark is NUL, the cell shows what it shows with no fly |
| Screen.EmptyEdgeRowIsDash | src/main.c:214-215 | a cell with no fly in the top or bottom row, corners included, is `'-'` |
| Screen.EmptyInnerRowIsBarOrBlank | src/main.c:216-220 | any other cell with no fly is `'|'` in the first and last column and `' '` elsewhere |
| Screen.DrawScreen | src/main.c:203-223 | the frame is `HEIGHT` lines, each the `WIDTH` cell characters in column order followed by `'\n'` |
| Fly.SetDestination | src/main.c:162-164 | 1 exactly when the fly's queue exists and has room, appending the destination; else 0 with nothing changed |
| Fly.WaitForSetDestination | src/main.c:166-172 | 1 only when the wait saw data and the pop then got it; on success the pop's queue loses its head, which goes to the outputs; otherwise queue and outputs are untouched |
| Fly.SingleConsumerGetsHead | src/main.c:166-172 | with only producer pushes (such as the main thread's `FlySetDestination`) between wait and pop, the fly gets a destination exactly when its queue held one as the wait ended, and gets the oldest |

## Left out

- `SafeQueueDestroy`: it only releases the mutex, the condition variable and the memory; on NULL it returns at once. The model holds no resources, so there is nothing to compute.
- Mutexes, condition variables, thread creation and joining: every queue operation is one atomic step. `SafeQueueWait`'s blocking, `clock_gettime` and `pthread_cond_timedwait` are replaced by the parameters `now` and the queue state at loop exit.
- The fatal-error exit of `SafeQueueWait` on a wait error other than a timeout: a process exit, not a queue outcome.
- Allocation: `malloc` failure is the parameter `mallocOk`; `free` is not modelled.
- Fixed-width integers: sizes and indices are unbounded naturals. This leaves out the wrap of `size + 1` for the largest `size_t`, the overflow of `size * sizeof(Point)`, the narrowing of the count into `int res`, and overflow of `tv_sec`.
- SafeQueue.Wait: does not model that the loop exits early only on a signal, which no push sends; which state the loop exits in is a parameter.
- Fly.WaitForSetDestination: the queue states at the wait and at the pop are parameters; the scheduling that relates them is not modelled.
- SafeQueue.Pop: takes the two output pointers as independent variables; C allows `x` and `y` to be the same pointer, in which case `*y`, written last, wins. No caller passes aliased outputs.
- SafeQueueImpl.Queue.Pop: likewise takes the two outputs as independent variables.
- Floating point: the fly kinematics `FlyMove`, `FlySetDirection` and `FlyDistance` (`cos`, `sin`, `atan2`, `sqrt`), and the double-to-int truncation in `FlyIsAt`, whose result is taken as given in `Screen.FlyView`.
- Screen.DrawScreen: draws from one snapshot of the flies; the source reads each fly's position under its own lock per cell, so a fly moving mid-frame is not modelled.
- Terminal output and input: escape sequences, `putchar`/`printf`, `fgets`/`strtod`, the `doMove` and `doDraw` thread loops and `requestDraw`.
- `src/queueTest.c`: a randomised multi-threaded stress harness; its check that popped pairs have equal coordinates is covered by the round-trip and FIFO properties.
