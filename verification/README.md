# Verified models of small concurrency primitives

The repository builds locks, channels, reference counters and identifier allocators from atomics. This
project models them as state machines over any number of threads and proves what holds in every state of
every run, for every schedule. A step is one atomic operation, one system call or one access to shared
data by an arbitrary thread. Each operation is also written as code that updates the shared fields in
place, loop by loop as in the program, and that code is proved to follow the state machine.

How to read a model:

- `Step(s, t, c)` is one step of thread `t`; `c` holds what the scheduler, the memory or the system may
  choose: stale loads, spurious failures and wakeups, which sleeper is woken. A step that cannot be taken
  changes nothing. `Run` is a schedule of steps, and the theorems are about `Run(Init(n), sched)` for all
  `n` and all `sched`.
- A flag `bad` records what must not happen: a block touched after it was freed, T used after it was
  dropped, a cell read while uninitialised, a data race. The theorems show that it stays false, and say
  without it what holds at every access (`ReadsAreOrdered`, `GetMutIsAlone`, `TwoStageLifetime`).
- Ownership is explicit. A handle is owned, borrowed shared or borrowed exclusively; an operation in
  flight holds the loan that its Rust signature takes (`borrowing.dfy`). A reference that is counted but
  not yet, or no longer, a usable handle is a `Stray` of its thread.
- In the `*_code.dfy` files a method is one call by thread `t`. The call comes in turns: what its own step
  leaves to chance, and a gap, which is what other threads do before its next one. `Valid()` says that the
  fields are the state after some run, so all theorems about runs hold of the object.
- A method states the whole new state: `Finish(s, t, turns, 0)` is what is left when the thread takes its
  turns until its call is over, or as many as there are. It also states what the call itself achieves, and for
  a call with a loop when it does: exactly if one of its own steps finds what it needs (`SeizesAt`,
  `SettlesAt`, `EndsAt`). A call that is not over when its turns are used up reports so.
- The `*_spec.dfy` files restate the clock models without counters, messages and clocks. Every step does to
  the references what the specification says, which counts references where the program reads a counter.

| files | subject |
|---|---|
| `locks.dfy`, `locks_code.dfy` | spin lock, two-state, three-state and spinning futex mutex, guarding a counter with Relaxed accesses |
| `arc_clocks.dfy`, `arc_clocks_spec.dfy`, `arc_clocks_wrap.dfy`, `arc_clocks_code.dfy` | `Arc` with one counter, under release/acquire clocks with stale Relaxed loads |
| `arc_simple.dfy`, `arc_simple_code.dfy` | `Arc` and `Weak` with two counters |
| `arc_simple_clocks.dfy`, `arc_simple_clocks_*.dfy` | the same under release/acquire clocks with stale Relaxed loads; its second counter refines the one-counter `Arc` |
| `arc_optimised.dfy`, `arc_optimised_code.dfy` | `Arc` and `Weak` with a shared implicit weak reference and a locked counter |
| `arc_optimised_clocks.dfy`, `arc_optimised_clocks_*.dfy` | the optimised form under release/acquire clocks with stale Relaxed loads of both counters |
| `arc_spec.dfy`, `arc_simple_whole.dfy`, `arc_optimised_whole.dfy`, `arc_refinement.dfy` | both two-counter forms equal one specification, so the optimised form refines the simple one |
| `channel_queue.dfy`, `channel_queue_code.dfy` | channel of a queue, a mutex and a condition variable |
| `channel_flags.dfy`, `channel_flags_code.dfy` | one-shot channel with run-time checks, as one state word and as two flags |
| `channel_split.dfy`, `channel_split_code.dfy` | reusable one-shot channel, panicking and blocking |
| `ids.dfy`, `ids_code.dfy` | bounded identifiers by compare-exchange and by undo |
| `borrowing.dfy`, `two_clocks.dfy`, `sums.dfy`, `usize.dfy`, `basics.dfy` | loans, clocks of two counters, sums over sequences, 64-bit counters, shared small notions |

Some properties that one may expect hold only under a condition, which is proved exact:

- The allocator that undoes its overshoot issues an identifier twice if and only if more than 2^32 - 10
  threads call it (`UndoIds.DistinctIff`).
- The abort of `clone` keeps the one counter from wrapping around if and only if there are at most
  `usize::MAX / 2` threads (`ArcClocksWrap.NeverWrapsIff`).
- `get_mut` documents Some only for a lone `Arc`, which holds in all three forms. The converse does not,
  because its loads are Relaxed: `ArcClocks.LonelyRefused`, `SimpleClocksCertain.LonelyRefused`,
  `OptimisedClocksRefused.LonelyRefused` and `OptimisedClocksRefused.LonelyRefusedAtOnce` are runs in which a
  lone `Arc` is refused by a stale load or a stale exchange.
- A call of `get_mut` is certain of Some if and only if at its start the `Arc` is the only handle and every
  update of the counter that it reads happens before the call (`ArcClocks.CertainOfSome`,
  `SimpleClocksCertain.CertainOfSome`). The optimised form reads both counters: there every update of both
  happens before its exchange, in the caller's own past or through the newest message of the second counter
  (`OptimisedClocksCertain.CertainOfSome`).
- The sequentially consistent models of the two-counter forms, on which the code is built, let any read of
  `get_mut` be stale and then refuse; that no stale 1 exists is proved with clocks.

## Model

| member | source | states |
|---|---|---|
| Locks.StepInv | examples/09-01-02_further-improvements.rs:46-85 | every step of every lock keeps the invariant: the word tells how many threads are inside, the holder and the released clock know the newest counter entry, counter plus remaining rounds is constant, sleepers are covered |
| Locks.MutualExclusion | examples/09-01_mutex.rs:90-107 | in every run of any of the four locks at most one thread is inside, and some thread is inside exactly when the word is not 0 |
| Locks.HolderIsUpToDate | examples/07-04-03_experiment.rs:35-62 | whoever is inside knows the newest entry of the counter, although counter accesses are Relaxed: the release of the word carries it |
| Locks.NoLostWakeup | examples/09-01-02_further-improvements.rs:58-85 | while a thread sleeps, the word has the contended value, or an unlocker is about to call `wake_one`, or an awake thread is about to do the swap that marks contention; spinning threads and 0-to-1 attempts do not count |
| Locks.SpinIsBounded | examples/09-01-02_further-improvements.rs:58-68 | only the spinning mutex spins, and at most a hundred times per attempt |
| Locks.CounterIsExact | examples/07-04-03_experiment.rs:35-62 | `n` threads that increment `k` times by separate load and store leave exactly `n * k` and a free word |
| Locks.AlwaysCompletable | examples/09-01-02_further-improvements.rs:46-85 | from every reachable state a finite continuation finishes every thread, with the word 0, nobody asleep and the count exact |
| Locks.ForwardSimulation | examples/04-03_safe-interface-with-lock-guard.rs:33-70 | every step of every lock is a step of one abstract single-owner lock, which is free exactly when the word is 0 |
| LocksCode.Lock.constructor | examples/09-01_mutex.rs:83-88 | a new lock is in the initial state of its machine |
| LocksCode.TakenWhenFree | examples/09-01-02_further-improvements.rs:46-77 | for all four locks a call that takes its turns has the lock at the end if and only if one of its own attempts finds the word 0 and, for a compare-exchange, sees that |
| LocksCode.Lock.LockSpinLock | examples/04-03_safe-interface-with-lock-guard.rs:33-38 | the call makes its attempts turn by turn and gets the lock if and only if one of them finds it free; then the caller holds it, nobody else is inside and the newest counter value is known to it |
| LocksCode.Lock.LockTwoState | examples/09-01_mutex.rs:90-97 | the same for the swap-and-wait loop |
| LocksCode.Lock.LockThreeState | examples/09-01-01_avoiding-system-call.rs:50-103 | the same for the compare-exchange, which may fail by a stale load, followed by the swap-2 loop: the lock is taken if and only if an attempt that is not stale finds it free |
| LocksCode.Lock.LockSpinning | examples/09-01-02_further-improvements.rs:46-55 | the same for the mutex that spins first |
| LocksCode.Lock.LockContended | examples/09-01-02_further-improvements.rs:58-77 | from the spin phase on the call does what is left of it, for any values seen by the spin loads and a second compare-exchange that may fail by a stale load; if it gets the lock, the caller is alone inside |
| LocksCode.Lock.LockLoop | examples/09-01-02_further-improvements.rs:74-77 | the swap-2 loop does what is left of the call: the lock is taken, or the turns are used up |
| LocksCode.Lock.Increment | examples/07-04-03_experiment.rs:48-52 | wherever the memory lets the Relaxed load read and the Relaxed store be placed, the modification order grows at its end by the newest value plus one, whatever others do in between |
| LocksCode.Lock.Release | examples/09-01-02_further-improvements.rs:78-85 | dropping the guard first sets the word to 0 and, where the lock owes it, ends with a `wake_one` that wakes exactly one sleeper if there is any, after whatever others do in between; the thread is outside |
| LocksCode.Lock.WakeOne | examples/08-03-01_futex.rs:6-24 | if somebody sleeps, exactly one sleeper goes back to its lock loop, and nothing else changes |
| LocksCode.Lock.FutexWait | examples/08-03-01_futex.rs:6-24 | the first step sleeps if and only if the word has the expected value; the call returns to the lock loop at once otherwise, and later if woken or spuriously |
| ArcOptimised.StepInv | examples/06-03_optimization.rs:56-207 | every step keeps the invariant of counters, owners of pending drops, loans and the lock value |
| ArcOptimised.CountersAreExact | examples/06-03_optimization.rs:56-207 | the first counter is the outstanding `Arc`s; the second the outstanding `Weak`s plus the implicit one, or `usize::MAX` exactly while one thread is between the compare-exchange and the store of get_mut, and then no `Weak` exists |
| ArcOptimised.GetMutDecidesOnSnapshot | examples/06-03_optimization.rs:56-101 | get_mut answers as if from one snapshot: None at the compare-exchange only if another handle exists or the exchange is stale, otherwise Some at the load exactly if the caller's is the only handle and the load is not stale; a positive answer stays true until the borrow ends |
| ArcOptimised.MutableBorrowIsAlone | examples/06-03_optimization.rs:56-123 | while the `&mut T` lives no other thread works through any handle |
| ArcOptimised.TwoStageLifetime | examples/06-03_optimization.rs:133-207 | T is dropped and the block freed at most once, in this order, only when unreferenced; nobody reads or mutates T after the drop or works through a handle after the free; no assert fails |
| ArcOptimised.NothingLeaks | examples/06-03_optimization.rs:175-207 | once all handles are gone and no call is in flight, T was dropped and the block freed |
| ArcOptimised.WhoEndsTheLifetimes | examples/06-03_optimization.rs:143-207 | T is dropped by the thread whose decrement took the first count from 1 to 0, which never leaves 0 again; the block is freed by the one that took the second count from 1 to 0, after T; a successful upgrade finds T alive |
| ArcOptimisedCode.Block.constructor | examples/06-03_optimization.rs:39-50 | a new block has both counts 1 and one `Arc` |
| ArcOptimisedCode.EveryCallEnds | examples/06-03_optimization.rs:103-163 | upgrade and downgrade end within their turns if and only if one of their own steps reads that no `Arc` is left or exchanges the value that it read |
| ArcOptimisedCode.Block.Clone | examples/06-03_optimization.rs:186-193 | the answer is the handle that a step of this call made, an `Arc` to a live T with the count at most `usize::MAX / 2 + 1`, or the process has aborted |
| ArcOptimisedCode.Block.Upgrade | examples/06-03_optimization.rs:143-163 | Some is the `Arc` that a step of this call made, to a live T, None means the first count is 0, the answer was right at that step, and there is an answer if and only if one of the steps settles it |
| ArcOptimisedCode.Block.Downgrade | examples/06-03_optimization.rs:103-123 | Some is the `Weak` that a step of this call made when the second counter was not locked, and it comes if and only if one of the exchanges finds the value read before and does not fail spuriously |
| ArcOptimisedCode.Block.GetMut | examples/06-03_optimization.rs:56-101 | Some if and only if no read is stale and the caller's was the only handle at the moment of the call that decides; then it still is on return and T is alive; None means another handle at that moment or a stale read |
| ArcOptimisedCode.Block.DropArc | examples/06-03_optimization.rs:195-207 | the handle is gone; the call reports to be the last one if and only if its decrement took the first count from 1 to 0, and then it has dropped T and given up the implicit weak reference |
| ArcOptimisedCode.Block.CloneWeak | examples/06-03_optimization.rs:166-173 | the answer is the handle that a step of this call made, a `Weak` to a block that is not freed, with the count at most `usize::MAX / 2 + 1`, or the process has aborted |
| ArcOptimisedCode.Block.DropWeakHandle | examples/06-03_optimization.rs:175-184 | the handle is gone and no free is owed |
| ArcOptimisedCode.Block.DecrementWeak | examples/06-03_optimization.rs:176-183 | exactly the decrement from 1 owes the free |
| ArcSimple.StepInv | examples/06-02_weak-pointer.rs:61-175 | every step keeps the invariant of the two counters with references counted in only one of them |
| ArcSimple.AllocAloneDecidesGetMut | examples/06-02_weak-pointer.rs:61-75 | the load of the second counter alone decides get_mut: Some exactly when it is not stale and the caller's `Arc` is the only reference in both counters, which it stays while the borrow lives |
| ArcSimple.NobodyMidway | examples/06-02_weak-pointer.rs:61-75 | when get_mut sees 1, no other thread is inside a clone, upgrade, downgrade, deref or drop |
| ArcSimple.TwoStageLifetime | examples/06-02_weak-pointer.rs:87-175 | T is dropped and the block freed at most once, in this order; nobody reads or mutates T after the drop or works through a handle after the free; no assert fails |
| ArcSimple.NothingLeaks | examples/06-02_weak-pointer.rs:140-175 | once all handles are gone and no call is in flight, T was dropped and the block freed |
| ArcSimple.WhoEndsTheLifetimes | examples/06-02_weak-pointer.rs:87-175 | T is dropped by whoever took the first count from 1 to 0, which never leaves 0 again; the block is freed by whoever took the second to 0; a successful upgrade finds T alive |
| ArcSimple.DataMayOvertakeAlloc | examples/06-02_weak-pointer.rs:87-109 | concurrent upgrades through one `Weak` push the first counter to `n + 1` while the second is 2, for every number `n` of threads above 1 that fits below the bound on handles (`n < usize::MAX - 4`) |
| ArcSimpleCode.Block.constructor | examples/06-02_weak-pointer.rs:49-59 | a new block has both counts 1 and one `Arc` |
| ArcSimpleCode.EveryCallEnds | examples/06-02_weak-pointer.rs:87-109 | upgrade ends within its turns if and only if one of its own steps reads that no `Arc` is left or, behind a successful exchange, increments a second counter that is not too large |
| ArcSimpleCode.Block.NewWeak | examples/06-02_weak-pointer.rs:121-128 | downgrade and clone of a `Weak` answer with the `Weak` that a step of this call made, to a block that is not freed, with the count at most `usize::MAX / 2 + 1`, or the process has aborted |
| ArcSimpleCode.Block.Clone | examples/06-02_weak-pointer.rs:130-138 | the answer is the handle that a step of this call made, after both increments an `Arc` to a live T with the first count at most `usize::MAX / 2 + 1`, or the process has aborted |
| ArcSimpleCode.Block.Upgrade | examples/06-02_weak-pointer.rs:87-109 | Some is the handle that the exchange of this call made, an `Arc` to a live T, None means the first count is 0, the answer was right at that step, and there is an answer if and only if one of the steps settles it |
| ArcSimpleCode.Block.GetMut | examples/06-02_weak-pointer.rs:61-75 | Some answers with the handle and means a load that is not stale, one reference in both counters and T alive; None means that there is another reference or that the load is stale |
| ArcSimpleCode.Block.DropArc | examples/06-02_weak-pointer.rs:152-175 | the handle is gone and nothing is owed on return; the call reports to be the last one if and only if its decrement took the first count from 1 to 0, and then it has dropped T |
| ArcSimpleCode.Block.DropWeakHandle | examples/06-02_weak-pointer.rs:140-150 | the handle is gone and no free is owed |
| ArcSimpleCode.Block.DecrementAlloc | examples/06-02_weak-pointer.rs:140-150 | whoever takes the second count from 1 to 0 has freed the block on return |
| OptimisedWhole.WholeMeansSpec | examples/06-03_optimization.rs:38-207 | a whole operation of the optimised form, run alone on newest values, does to handles and borrows what the specification says |
| SimpleWhole.WholeMeansSpec | examples/06-02_weak-pointer.rs:49-175 | the same for the simple form |
| OptimisedWhole.RestCounters | examples/06-03_optimization.rs:56-207 | between operations the counters, the drop and the free are functions of the handles |
| SimpleWhole.RestCounters | examples/06-02_weak-pointer.rs:61-175 | the same for the simple form |
| ArcRefinement.OptimisedRefinesSimple | examples/06-03_optimization.rs:38-207 | for every sequence of whole operations with at most `usize::MAX / 2` handles both forms hold the same handles and borrows, those of the specification; T is dropped and the block freed at the same operation; simple second count is data + alloc - 1 while data > 0, alloc otherwise |
| ArcClocks.StepInv | examples/06-01-02_updating.rs:55-95 | every step keeps the invariant that ties clocks of threads, handles and messages to the count |
| ArcClocksSpec.EveryStepConforms | examples/06-01-02_updating.rs:55-95 | every step of every run does to handles, borrows, accesses and the block what a specification says that counts references instead of reading the counter |
| ArcClocks.AccessesHappenBeforeFree | examples/06-01_basic-reference-counter.rs:78-96 | every access to T or the counter, by any thread through any handle, happens before the last dropper frees the block, and then no handle is left |
| ArcClocks.GetMutIsAlone | examples/06-01-02_updating.rs:55-66 | when get_mut has returned Some the caller's is the only handle, every earlier access happens before the mutable borrow and nobody else is engaged |
| ArcClocks.GetMutDecides | examples/06-01-02_updating.rs:55-66 | the load of get_mut sees 1 if and only if it reads the newest message and the caller's is the only handle: no stale 1 is possible; the next step of the caller then has the `&mut T`, otherwise the call has ended |
| ArcClocks.CertainOfSome | examples/06-01-02_updating.rs:55-66 | the steps of get_mut end with the `&mut T` whatever others do in between and whichever message its load reads, unless the process aborts, if and only if at the start of the call the `Arc` is the only handle and every update of the counter happens before the call |
| ArcClocks.SomeIsGranted | examples/06-01-02_updating.rs:55-66 | for any number of threads some run reaches the `&mut T` |
| ArcClocks.NothingLeaks | examples/06-01_basic-reference-counter.rs:87-96 | once all handles are gone and no call is in flight, the block was freed |
| ArcClocks.LonelyRefused | examples/06-01-02_updating.rs:55-66 | a run in which the only handle is refused by a stale load |
| ArcClocks.NoDataRace | examples/06-01_basic-reference-counter.rs:56-96 | no run has a data race or a use after free, and the block is freed at most once and not under a live handle |
| ArcClocks.ReadsAreOrdered | examples/06-01_basic-reference-counter.rs:70-76 | whoever may read T through a borrowed handle does so behind every write, and the block is there |
| ArcClocks.CountNeverWraps | examples/06-01_basic-reference-counter.rs:78-85 | the count is at most `usize::MAX / 2 + 1` plus the threads about to abort, so no increment wraps around with at most `usize::MAX / 2` threads |
| ArcClocksWrap.CountWraps | examples/06-01_basic-reference-counter.rs:78-85 | with more threads some run wraps the count around to 0 under a live handle |
| ArcClocksWrap.NeverWrapsIff | examples/06-01_basic-reference-counter.rs:78-85 | no increment of any run wraps around if and only if there are at most `usize::MAX / 2` threads |
| ArcClocksCode.Counter.constructor | examples/06-01_basic-reference-counter.rs:56-63 | a new block has count 1 and one handle |
| ArcClocksCode.Counter.CloneArc | examples/06-01-02_updating.rs:77-84 | exactly one more live handle, which is the answer, and a count one higher, or the process has aborted |
| ArcClocksCode.Counter.DropArc | examples/06-01-02_updating.rs:86-95 | the handle is gone; the call reports to be the last one if and only if its decrement took the count from 1 to 0, and then it has freed the block after every access |
| ArcClocksCode.Counter.FetchSub | examples/06-01-02_updating.rs:88 | the decrement reports the last handle exactly when it leaves 0 |
| ArcClocksCode.Counter.GetMut | examples/06-01-02_updating.rs:55-66 | Some means that the caller is alone and every access happens before the borrow, None that at the start of the call it was not both alone and up to date |
| SimpleClocksRuns.StepSim | examples/06-02_weak-pointer.rs:61-175 | every step under the weak memory model keeps the invariant of both counters, borrows and clocks, and is matched by steps of the one-counter `Arc` |
| SimpleClocksRuns.SecondCounterRefinesArc | examples/06-02_weak-pointer.rs:121-150 | every run, seen through the second counter, is a run of the one-counter `Arc`: same modification order, handles and accesses, with clocks that know at least as much |
| SimpleClocksSpec.EveryStepConforms | examples/06-02_weak-pointer.rs:61-175 | every step of every run does to handles, borrows, accesses, T and the block what a specification says that counts references instead of reading the counters |
| SimpleClocksTheorems.GetMutDecides | examples/06-02_weak-pointer.rs:61-75 | the Relaxed load of the second counter sees 1 if and only if it reads the newest message and the caller's is the only handle: no stale 1 is possible; the next step of the caller then has the `&mut T`, otherwise the call has ended |
| SimpleClocksTheorems.GetMutIsAlone | examples/06-02_weak-pointer.rs:61-75 | while the `&mut T` lives the caller's is the only handle and the only reference in both counters, every access so far happens before, and nobody else works through any handle |
| SimpleClocksTheorems.AccessesHappenBeforeDrop | examples/06-02_weak-pointer.rs:152-175 | every access to T through any `Arc` happens before the last dropper drops T, and then no `Arc` is left |
| SimpleClocksTheorems.AccessesHappenBeforeFree | examples/06-02_weak-pointer.rs:140-150 | every access to the block, also the drop of T, happens before it is freed, and then no handle is left |
| SimpleClocksTheorems.NoDataRace | examples/06-02_weak-pointer.rs:61-175 | no run has a data race, touches T or the block too late or fails the assert of upgrade, with at most `usize::MAX / 2` threads and any number of handles; each ends at most once, in this order |
| SimpleClocksTheorems.ReadsAreOrdered | examples/06-02_weak-pointer.rs:112-119 | whoever may read T through a borrowed `Arc` does so behind every write, and T is alive |
| SimpleClocksTheorems.NothingLeaks | examples/06-02_weak-pointer.rs:140-175 | once all handles are gone and no call is in flight, T was dropped and the block freed |
| SimpleClocksTheorems.UpgradeIsRight | examples/06-02_weak-pointer.rs:87-109 | however stale its loads, upgrade answers None exactly when it reads the newest message and no `Arc` is left; its exchange succeeds exactly when what it read is the number of `Arc`s, then T is alive, and the next step makes a new live `Arc` unless there are too many handles |
| SimpleClocksCertain.CertainOfSome | examples/06-02_weak-pointer.rs:61-75 | the steps of get_mut end with the `&mut T` whatever others do in between and whichever message its load reads, unless the process aborts, if and only if at the start of the call the `Arc` is the only handle and every update of the second counter happens before the call |
| SimpleClocksCertain.SomeIsGranted | examples/06-02_weak-pointer.rs:61-75 | for any number of threads some run reaches the `&mut T` |
| SimpleClocksCertain.LonelyRefused | examples/06-02_weak-pointer.rs:61-75 | a run in which the only handle is refused by a stale load |
| OptimisedClocksRuns.StepInv | examples/06-03_optimization.rs:56-207 | every step under the weak memory model keeps the invariant that ties clocks of threads, handles and messages of both counters to the counts |
| OptimisedClocksSpec.EveryStepConforms | examples/06-03_optimization.rs:56-207 | every step of every run, of clone, downgrade, upgrade, get_mut and the drops, does to handles, borrows, accesses, the lock, T and the block what a specification says that counts references instead of reading the counters |
| OptimisedClocksTheorems.GetMutDecides | examples/06-03_optimization.rs:56-101 | the exchange of get_mut succeeds if and only if there is no `Weak` and no other locker; the Relaxed load behind it sees 1 if and only if it reads the newest message and the caller's is the only handle: the Acquire exchange, paired with the Release of `Weak::drop`, rules out a stale 1; the store then leads to the fence and the fence to the `&mut T`, or the store ends the call |
| OptimisedClocksTheorems.GetMutIsAlone | examples/06-03_optimization.rs:56-101 | while the `&mut T` lives the caller's is the only handle, every access so far happens before, and nobody else works through any handle |
| OptimisedClocksTheorems.AccessesHappenBeforeDrop | examples/06-03_optimization.rs:195-207 | every access to T through any `Arc` happens before the last dropper drops T |
| OptimisedClocksTheorems.AccessesHappenBeforeFree | examples/06-03_optimization.rs:175-184 | every access to the block, also the drop of T, happens before it is freed, and then no handle is left |
| OptimisedClocksTheorems.NoDataRace | examples/06-03_optimization.rs:56-207 | no run has a data race or touches T or the block too late; each ends at most once, in this order |
| OptimisedClocksTheorems.ReadsAreOrdered | examples/06-03_optimization.rs:130-137 | whoever may read T through a borrowed `Arc` does so behind every write, and T is alive |
| OptimisedClocksTheorems.NothingLeaks | examples/06-03_optimization.rs:175-207 | once all handles are gone and no call is in flight, T was dropped and the block freed |
| OptimisedClocksCertain.CertainOfSome | examples/06-03_optimization.rs:56-101 | the steps of get_mut end with the `&mut T` whatever others do in between and whichever messages its exchange and its load read, unless the process aborts, if and only if at the start of the call the `Arc` is the only handle and every update of both counters happens before the exchange |
| OptimisedClocksCertain.SomeIsGranted | examples/06-03_optimization.rs:56-101 | for any number of threads some run reaches the `&mut T` |
| OptimisedClocksRefused.LonelyRefused | examples/06-03_optimization.rs:56-101 | a run in which the only handle is refused by a stale load of the first counter behind a successful exchange |
| OptimisedClocksRefused.LonelyRefusedAtOnce | examples/06-03_optimization.rs:56-101 | a run in which the only handle is refused by an exchange that reads a stale second counter |
| OptimisedClocksUpgrade.UpgradeIsRight | examples/06-03_optimization.rs:143-163 | however stale its loads, upgrade answers None exactly when it reads the newest message and no `Arc` is left; its exchange succeeds exactly when what it read is the number of `Arc`s, and then T is alive, the call is over and one more live `Arc` is there |
| QueueChannel.FirstInFirstOut | examples/05-01_simple-channel-with-mutex.rs:34-60 | in every run what was sent is what was received followed by what is queued, in order |
| QueueChannel.NoMessageStranded | examples/05-01_simple-channel-with-mutex.rs:34-60 | while a receiver sleeps, queued messages are at most the pending notifies plus the woken receivers that have not looked again |
| QueueChannel.CallsFinish | examples/05-01_simple-channel-with-mutex.rs:34-60 | from every reachable state, every schedule without new calls and spurious wakeups makes only boundedly many effective steps; where none is left every call has returned or sleeps before an empty queue |
| QueueChannelCode.Channel.SendMessage | examples/05-01_simple-channel-with-mutex.rs:34-40 | the message is added behind what was sent before the call, and what was sent is still what was received followed by what is queued; the call is over if and only if it gets to its notify |
| QueueChannelCode.Channel.NotifyOne | examples/05-01_simple-channel-with-mutex.rs:39 | if somebody sleeps, exactly one sleeper is woken |
| QueueChannelCode.FreeLockSends | examples/05-01_simple-channel-with-mutex.rs:34-40 | a sender that finds the lock free has sent and notified two steps later, whatever others do in between |
| QueueChannelCode.Channel.ReceiveMessage | examples/05-01_simple-channel-with-mutex.rs:42-60 | the k-th message received is the k-th message sent; there is one if and only if the receiver finds the queue not empty at one of its own steps under the lock |
| QueueChannelCode.OverWhenEnded | examples/05-01_simple-channel-with-mutex.rs:34-60 | a call is over within its turns if and only if one of its own steps notifies or takes a message |
| FlagChannels.StepInv | examples/05-03_represent_channel_state_with_single_atomic_variable.rs:34-71 | every step keeps the phase invariant of word, active thread, cell and ledger |
| FlagChannels.Bisimilar | examples/05-03_safety-through-runtime-checks.rs:29-78 | under every schedule the two-flag form and the single-word form agree step for step on panics, answers, received message and drop decision |
| FlagChannels.OneMessageAtMost | examples/05-03_represent_channel_state_with_single_atomic_variable.rs:34-71 | in both forms at most one send and one receive succeed, the message that leaves is the message sent, none is left after the drop, two threads never access the cell at once and it is initialised when it is read |
| FlagChannels.CallsTellTheTruth | examples/05-03_safety-through-runtime-checks.rs:29-67 | as many sends return normally as messages are sent, each received message is returned once, a send panics only if another one won, is_ready answers true only if there was a message |
| FlagChannels.EveryAnswerIsRight | examples/05-03_safety-through-runtime-checks.rs:29-67 | in both forms and in every state is_ready and receive see a message if and only if one was sent that nobody has begun to receive, send succeeds if and only if nobody has begun to send, a send that succeeds makes its message ready, and receive returns it |
| FlagChannelsCode.SingleChannel.Send | examples/05-03_represent_channel_state_with_single_atomic_variable.rs:34-47 | succeeds exactly when nobody had begun to send, and then this is the only message sent |
| FlagChannelsCode.SingleChannel.Receive | examples/05-03_represent_channel_state_with_single_atomic_variable.rs:53-62 | succeeds exactly when a message was sent that nobody had begun to receive, and returns it |
| FlagChannelsCode.SingleChannel.AskReady | examples/05-03_represent_channel_state_with_single_atomic_variable.rs:49-51 | answers true exactly when a message was sent that nobody has begun to receive |
| FlagChannelsCode.SingleChannel.Drop | examples/05-03_represent_channel_state_with_single_atomic_variable.rs:65-71 | after the drop every message sent was received or dropped, once |
| FlagChannelsCode.DoubleChannel.Send | examples/05-03_safety-through-runtime-checks.rs:29-38 | the same with `in_use` and `ready` |
| FlagChannelsCode.DoubleChannel.Receive | examples/05-03_safety-through-runtime-checks.rs:53-67 | the same with `in_use` and `ready` |
| FlagChannelsCode.DoubleChannel.AskReady | examples/05-03_safety-through-runtime-checks.rs:40-51 | the same with `in_use` and `ready` |
| FlagChannelsCode.DoubleChannel.Drop | examples/05-03_safety-through-runtime-checks.rs:70-78 | the same with `in_use` and `ready` |
| SplitChannel.StepInv | examples/05-06_blocking.rs:32-74 | every step of either form keeps the ledger, the agreement of both sides on the cell and the cover of a parked receiver |
| SplitChannel.MessagesAreConserved | examples/05-05_avoiding-memory-allocation-by-using-borrowing.rs:23-68 | over any number of rounds every message is, once, in the channel, received, or dropped by a later split or the final drop; the cell is initialised and not being written when it is read, and not initialised when it is written |
| SplitChannel.ReadyMeansNoPanic | examples/05-05_avoiding-memory-allocation-by-using-borrowing.rs:59-68 | a receive after a true `is_ready` does not panic |
| SplitChannel.ReceiveReturns | examples/05-06_blocking.rs:59-74 | once send has returned, the receiver has received this round's message by its third turn, however its turns are interleaved with steps of others, stray unparks, leftover tokens and spurious wakeups |
| SplitChannel.BlockedMeansNothingSent | examples/05-06_blocking.rs:59-74 | a parked receiver without token faces a round in which nothing was sent, except exactly while the sender is between its write and its unpark |
| SplitChannel.ReadsThisRound | examples/05-06_blocking.rs:43-74 | what receive is about to return is the message written in this round |
| SplitChannelCode.Channel.constructor | examples/05-06_blocking.rs:23-30 | a new channel is empty and unborrowed |
| SplitChannelCode.Channel.Split | examples/05-06_blocking.rs:43-55 | a new round with an empty cell; the unreceived message of the round before is dropped, and no other |
| SplitChannelCode.Channel.Drop | examples/05-06_blocking.rs:32-40 | after the final drop every message was received or dropped, once |
| SplitChannelCode.Channel.Send | examples/05-06_blocking.rs:59-65 | a receiver that has not received yet finds this message ready, with a token if it is parking |
| SplitChannelCode.Channel.Receive | examples/05-06_blocking.rs:69-74 | returns this round's message; unfinished if and only if it is parked and nobody has unparked it, and then no send has returned in this round; the form without blocking panics exactly if nothing was ready |
| SplitChannelCode.Channel.AskReady | examples/05-05_avoiding-memory-allocation-by-using-borrowing.rs:59-61 | the answer is the flag |
| CasIds.IssuesGapFree | examples/02-03-01_issuing-ids-without-overflow.rs:19-31 | identifiers are issued as 0, 1, 2 and so on, without repetition, below 1000; a call panics only after all were issued |
| IdsCode.CasAllocator.AllocateNewId | examples/02-03-01_issuing-ids-without-overflow.rs:19-31 | returns an identifier below the limit that no call returned before, or panics when all are taken; it does one of them if and only if one of its own steps reads the limit or exchanges the value that it read |
| IdsCode.OverWhenEnded | examples/02-03-01_issuing-ids-without-overflow.rs:19-31 | a call is over within its turns if and only if one of its own steps reads the limit or exchanges the value that it read, not failing spuriously |
| UndoIds.IssuesGapFree | examples/02-02-03_issuing-ids.rs:18-27 | with at most 2^32 - 10 threads, identifiers are issued in order, at most ten; the counter is issued plus overshoot, which is non-zero only after the tenth |
| UndoIds.IssuesTwice | examples/02-02-03_issuing-ids.rs:18-27 | with more threads some run wraps the counter around and issues an identifier twice |
| UndoIds.DistinctIff | examples/02-02-03_issuing-ids.rs:18-27 | identifiers are distinct in all runs if and only if there are at most 2^32 - 10 threads |
| IdsCode.UndoAllocator.AllocateNewId | examples/02-02-03_issuing-ids.rs:18-27 | returns the counter if it is below ten and panics otherwise, having undone its increment; with few enough threads that is the next identifier in order, and a panic means that all ten are issued |

## Left out

- Memory ordering beyond the clocks: the channels and the futex word are sequentially consistent; stale
  Relaxed reads are modelled for all three `Arc`s, the lock-protected counter, the failing compare-exchange and
  the spin loop of the locks, and the compare-exchange allocator.
- Load buffering: a step reads only what steps before it in the run have written, which ISO C++20 does not
  demand of Relaxed accesses.
- The optimised `Arc`, and the sequentially consistent model of the simple one, assume that outstanding
  handles stay below `usize::MAX - 1` (`AlwaysBounded`); beyond that upgrade and downgrade of the optimised form
  run into their asserts, which its weak memory model leaves out.
- The clock models of the one-counter and of the simple `Arc` assume at most `usize::MAX / 2` threads, so that
  no count can wrap around.
- Progress of the locks is the existence of a finishing continuation, not termination under fairness.
- The values of T, of messages beyond a number and of the protected data beyond a counter.
- std `Mutex`, `Condvar`, `park`/`unpark` and the futex call are step rules with spurious wakeups; lock
  poisoning is not modelled.
- `Send`, `Sync` and lifetimes appear only as the ownership discipline that they enforce.
- Dropping an `Arc` inside the drop of T, and panics inside T's own code.
- ArcSimple.AllocAloneDecidesGetMut: takes a stale read of get_mut as one that refuses, without saying when it
  is possible; SimpleClocksTheorems.GetMutDecides and SimpleClocksCertain.CertainOfSome say that. The same goes
  for ArcOptimised.GetMutDecidesOnSnapshot and the `GetMut` methods of both `Block` classes.
- ArcOptimisedCode.Block.Upgrade: requires that the handle which it creates fits below the bound on handles,
  and steps of others that would leave no room for it do not happen meanwhile. The other operations of both
  `Block` classes that create handles have the same limit.
- FlagChannels.EveryAnswerIsRight: is_ready reads the newest word; its Relaxed load may be stale in the
  program, which calls it a hint.
- `allocate_new_id_with_wrap_around` and `allocate_new_id_with_problem`: not meant to be bounded.
- examples/09-01-03_benchmark.rs, examples/05-04_safety-with-types.rs,
  examples/04-01_minimum-implementation.rs and examples/04-02_unsafe-spin-lock.rs: the same protocols again.
- examples/05-02_unsafe-oneshot-channel.rs: relies on its callers for what the later channels guarantee.
- Chapters 1 to 3 and 7 apart from the files cited: thread spawning, printing, timing, lazy
  initialisation, fixed two-thread ordering examples and benchmarks.
