# Locks and queues of amity, modelled and proved

This project models the synchronization primitives of the `amity` crate and proves what they are for.

* `src/spin.rs`: the reader-writer spin lock `RawRwSpin`, which packs a reader count, a queued writer
  and a holding writer into one word.
* `src/flip_queue.rs` over `src/ring_buffer.rs`: a queue whose pushes and pops run in parallel under a
  shared lock by claiming cells with two counters, and which is folded together under the exclusive lock.
* `src/condvar.rs`, `src/mutex.rs`, `src/state_ptr.rs`: a lock-free wait list of nodes that live on the
  stacks of the waiting threads, behind one word that also holds an 8-bit state, and the mutex on top.
* `src/triple.rs`: a triple buffer for one producer and one consumer.

Concurrent code is modelled as a transition system over any number of threads with sequentially
consistent memory. Every atomic operation, and every access to memory that another thread may touch, is
one step. A weak compare-exchange may fail for no reason, `park` may return for no reason, back-off may or
may not decide to block, and the address of a node that is gone may be used again at once by anybody.

| files | contents |
|---|---|
| `RawRwSpin.dfy`, `RawRwSpinSafety.dfy`, `RawRwSpinFairness.dfy`, `RawRwSpinOutcomes.dfy`, `RawRwSpinProgress.dfy`, `RawRwSpinCode.dfy` | the spin lock: protocol, accounting and exclusion, bounded overtaking, what each operation comes to in counts of readers and writers, deadlock freedom, the methods with their loops |
| `RingBuffer.dfy`, `RingBufferCode.dfy` | the ring buffer on values, and in place on an array and machine words |
| `FlipBuffer.dfy`, `FlipBufferCode.dfy` | the claim counters on values, and in place |
| `FlipQueue.dfy`, `FlipQueueLinear.dfy`, `FlipQueueRuns.dfy`, `FlipQueueProgress.dfy`, `FlipQueueCode.dfy` | the locked queue: protocol, simulation by an atomic FIFO queue, whole runs, completion of calls, the methods |
| `SpinFlipQueue.dfy`, `SpinFlipQueueProgress.dfy` | the queue composed with the spin lock, both as they are |
| `StatePtr.dfy` | a pointer and a state in one word |
| `CondVar.dfy`, `CondVarSafety.dfy`, `CondVarRuns.dfy`, `CondVarCode.dfy` | the wait list: protocol, invariant, whole runs, the methods with their loops and the pointer walk |
| `Mutex.dfy`, `MutexProgress.dfy` | the mutex as a client of the wait list, and that a waiter can always be served |
| `TripleBuffer.dfy`, `TripleBufferCode.dfy` | the triple buffer: state machine and runs, the buffer with its two handles |
| `Sums.dfy`, `Words.dfy`, `Options.dfy` | counting over threads, machine words, optional values |

Files named `...Code.dfy` hold classes with the source's fields and loops. In the concurrent ones other
threads interfere before every step. A ghost field records the run so far; each method accounts for what it
has done as steps of the transition system, so everything proved about runs holds for the code.

## Main results

* **Spin lock.** In every reachable state the word is exactly the readers registered plus 2^62 for a queued
  writer plus 2^63 for a holder, at most one writer is queued or holds, and no reader holds beside a writer.
  Nothing is assumed of the reader count: release builds do not check it, and the proof shows that a count
  driven past 2^62 by re-entrant guards stops there, up to two per thread. While a writer is queued, it is overtaken
  at most once by each reader that was waiting for good when it queued up, and by nobody else. That is
  unconditional in debug builds. In release builds it holds as long as fewer than 2^62 readers are registered,
  and `NewcomerNeedsHeadroom` shows that this is exactly what it takes. A writer that meets readers is queued after its
  first two operations. A `try` answers yes exactly if no writer is queued or holds and there is room for the count,
  or, for writing, exactly if nobody is registered, queued or holding. A free lock that is wanted is never stuck,
  and any chosen request can be served if the owners of guards give them back.
* **Queue.** Every run, with its calls and returns in real-time order, is a run of an atomic FIFO queue in
  which each call takes effect once; what went in is what came out, in order, and what is left. The two `try`
  methods may decline, and it is proved exactly when. With the spin lock put under the queue nothing has to be
  assumed of the lock any more. Any open call can be brought to its return.
* **Wait list and mutex.** A waker reads and marks only nodes whose owner is still waiting, although addresses
  are reused and an exchange on a stale pointer may succeed. Each detached node is marked once. No wake-up is
  lost. The state byte changes only by `set` and by exchanges that store a new state; a closure is shown only
  states that were in the word when the thread last looked, and its answer is what the thread does next. Any thread
  in the slow path of `lock` can be brought to own the mutex, without a spurious wake-up, if and only if the owner is
  not itself in `lock`: an owner that locks again locks everybody out.
* **Triple buffer.** It is a mailbox for one value that a publish overwrites; published values arrive fresh
  and in order, and each is consumed, handed back unread, or still pending.

Where the code and its documentation disagree the model follows the code. `src/spin.rs:77` says that a stream
of exclusive locks may block others; so progress is proved as freedom from deadlock and as the existence of a
schedule, not as fairness to each writer. `src/triple.rs:245-246` says that `consume` returns false if an element
was published; the code, and the model, return false if none was.

## Model

| member | source | states |
|---|---|---|
| RawRwSpinSafety.MutualExclusion | src/spin.rs:86-325 | in every reachable state, in debug and release builds, the word accounts exactly for registered readers, the queued and the holding writer; queued and holding writers are at most one; a writer's guard excludes every other guard, wherever guards have been sent |
| RawRwSpinSafety.StepPreserves | src/spin.rs:123-325 | every atomic operation of every thread, and sending a guard, keeps that accounting and the bound on the crowd |
| RawRwSpinSafety.CrowdBound | src/spin.rs:157-203 | without any check, re-entrant guards cannot push the reader count past 2^62 by more than two per thread, so it never carries into the holder's bit unless a writer is queued, and never past the word |
| RawRwSpinSafety.LocalCrowd | src/spin.rs:157-203 | a reader becomes entitled to a guard, and a writer queues, only while few guards are out |
| RawRwSpinSafety.LocalStartShared | src/spin.rs:123-165 | the first fetch_add of a shared request and its decision keep word and thread in step |
| RawRwSpinSafety.LocalReader | src/spin.rs:135-215 | so do giving way, rejoining, waiting and backing out |
| RawRwSpinSafety.LocalWriter | src/spin.rs:257-309 | so do enqueueing, converting exactly PENDING or zero into LOCKED, and cancelling |
| RawRwSpinSafety.LocalStartOther | src/spin.rs:228-255 | so do the first exclusive attempt and both unlocks |
| RawRwSpinSafety.GivePreserves | src/spin.rs:328-329 | sending a guard to another thread changes none of the counts |
| RawRwSpinSafety.DebugBound | src/spin.rs:378-403 | with the debug check the reader count never exceeds SHARED_LOCK_THRESHOLD + 1 + the number of threads, re-entrant guards included, so it always stays below EXCLUSIVE_PENDING |
| RawRwSpinSafety.LocalAdmission | src/spin.rs:126-130 | the debug check lets a registration stand only if it found a small count |
| RawRwSpinFairness.BoundedOvertaking | src/spin.rs:163-203 | while a writer stays queued, shared acquisitions plus readers that may still overtake never exceed the readers waiting for good at the start, and no other writer gets in |
| RawRwSpinFairness.NewcomersGiveWay | src/spin.rs:163-188 | a thread that is not waiting for good when the window is open acquires no shared lock before it closes |
| RawRwSpinFairness.LateRequestWaits | src/spin.rs:146-188 | in particular a request whose first fetch_add falls into the window |
| RawRwSpinFairness.DebugOvertaking | src/spin.rs:146-203 | both hold from every reachable state of a debug build, with nothing assumed |
| RawRwSpinFairness.NewcomerNeedsHeadroom | src/spin.rs:157-163 | in a release build a newcomer becomes able to overtake exactly when 2^62 or more readers are registered |
| RawRwSpinFairness.CrowdedNewcomerOvertakes | src/spin.rs:157-203 | a run of a fresh lock into a state with 2^62 guards in one hand and a queued writer, and a run from there in which a newcomer overtakes it |
| RawRwSpinFairness.WindowEnds | src/spin.rs:264-306 | a window ends only by its writer's own step, which holds the lock alone or cancels because the closure said so |
| RawRwSpinFairness.QueuedWriterGetsIn | src/spin.rs:293-306 | a queued writer's attempt succeeds exactly when no reader is registered any more |
| RawRwSpinOutcomes.WriterQueuesUp | src/spin.rs:245-293 | in every state that keeps the accounting, a writer that starts while readers, whatever their number, and no writer are there is queued after two operations: its window is open and the word has grown by EXCLUSIVE_PENDING |
| RawRwSpinOutcomes.RetryingWriterQueuesUp | src/spin.rs:274-293 | so is one that goes round in its loop when it meets them |
| RawRwSpinOutcomes.QueuedWriterKeepsTriesOut | src/spin.rs:123-139 | while a writer is queued every `try_lock_shared` is answered no |
| RawRwSpinOutcomes.TrySharedOutcome | src/spin.rs:123-139 | the try gives one shared guard if and only if no writer is queued or holds, fewer than 2^62 readers are registered and, in debug builds, not more than the threshold; otherwise its next operation puts everything back |
| RawRwSpinOutcomes.TryExclusiveOutcome | src/spin.rs:234-238 | the try gives the exclusive guard if and only if nobody is registered, queued or holding; otherwise nothing changes |
| RawRwSpinOutcomes.LockSharedOutcome | src/spin.rs:146-165 | after the first fetch_add: a guard if the lock is open; back out if it is too crowded for a debug build; give way if a writer is queued (or 2^62 readers look like one); else wait if the closure says so |
| RawRwSpinOutcomes.YieldOutcome | src/spin.rs:163-187 | the give-way loop unregisters once, ends if the closure says no, and goes on to register for good exactly when no writer is queued any more, nor 2^62 readers look like one |
| RawRwSpinOutcomes.AwaitOutcome | src/spin.rs:182-215 | a reader registered for good gets its guard exactly if no writer holds the lock, nor 2^62 readers and a queued writer look like one |
| RawRwSpinOutcomes.TakeOutcome | src/spin.rs:250-306 | an exchange that takes the lock succeeds, unless for no reason it fails, exactly if no reader is registered, no writer holds, and none but the thread itself is queued; what comes next depends on the closure and on whether only readers are there |
| RawRwSpinOutcomes.EnqueueOutcome | src/spin.rs:277-292 | the writer gets into the queue exactly if as many readers as it saw are still registered and no writer came before it |
| RawRwSpinOutcomes.CancelOutcome | src/spin.rs:265-268 | leaving the queue takes EXCLUSIVE_PENDING off the word and changes nothing else |
| RawRwSpinOutcomes.BackOutOutcome | src/spin.rs:136-136 | backing out takes one registration off the word and changes nothing else |
| RawRwSpinOutcomes.UnlockSharedOutcome | src/spin.rs:228-230 | takes one registration off the word and one guard off the thread |
| RawRwSpinOutcomes.UnlockExclusiveOutcome | src/spin.rs:323-325 | takes the holder's bit off the word and the guard off the thread |
| RawRwSpinOutcomes.WordMeans | src/spin.rs:378-403 | what comparing the word with zero and the marks says about readers and writers; 2^62 readers and more look like one writer more |
| RawRwSpinOutcomes.Reached | src/spin.rs:94-326 | every reachable state is one that these results cover |
| RawRwSpinProgress.FreeLockIsTaken | src/spin.rs:135-309 | from every state that keeps the accounting, with no holder and an open request, a schedule no longer than an explicit measure hands out exactly one guard |
| RawRwSpinProgress.DeadlockFree | src/spin.rs:135-309 | the same, from a fresh lock and over every run to a state with no holder and an open request |
| RawRwSpinProgress.RequestIsServed | src/spin.rs:146-325 | for any chosen request, shared or exclusive: if the owners of guards are outside of the lock's methods and give their guards back, a schedule no longer than an explicit measure gives that very thread the guard it asks for |
| RawRwSpinProgress.AnyRequestIsServed | src/spin.rs:146-325 | the same, from a fresh lock and over every run to a state in which the owners of guards are outside of the lock's methods |
| RawRwSpinProgress.FreeStep | src/spin.rs:163-309 | each step of that schedule takes the lock or makes the measure smaller |
| RawRwSpinCode.Lock.TryLockShared | src/spin.rs:123-139 | one call of the protocol's try; at the instant of its fetch_add the word, and so the counts of readers and writers, decide: yes if and only if no writer is queued or holds, there is room for the count and a debug build does not find it too large; a panic if and only if a debug build does; else no |
| RawRwSpinCode.Lock.LockSharedWhile | src/spin.rs:146-216 | the same for the method with its give-way loop and its waiting loop, under any interference; it gives up only when the closure says no, and panics if and only if a debug build finds too large a count in the word it read last; a guard is given only on a word without a holder's bit |
| RawRwSpinCode.Lock.YieldShared | src/spin.rs:163-188 | the give-way loop ends registered for good, or unregistered and without a guard |
| RawRwSpinCode.Lock.AwaitShared | src/spin.rs:190-215 | the waiting loop ends with a guard, or unregistered |
| RawRwSpinCode.Lock.UnlockShared | src/spin.rs:228-230 | gives up exactly one shared guard in one atomic step |
| RawRwSpinCode.Lock.TryLockExclusive | src/spin.rs:234-238 | one exchange, which answers yes if and only if at that instant the word was zero, that is nobody was registered, queued or holding; the thread owns the exclusive guard exactly if it answers yes |
| RawRwSpinCode.Lock.LockExclusiveWhile | src/spin.rs:245-310 | the same for the retry loop with its queueing, as the protocol's steps prescribe; it gives up only when the closure says no, and then leaves the queue |
| RawRwSpinCode.Lock.UnlockExclusive | src/spin.rs:323-325 | gives up the exclusive guard in one atomic step |
| RawRwSpinCode.Lock.Safe | src/spin.rs:94-326 | whatever the methods and their interference do, the fields of the lock account for all guards and exclude writers |
| RingBuffer.AtIsRemainder | src/ring_buffer.rs:842-853 | the cell `index` places after the head is the remainder of their sum |
| RingBuffer.AtInjective | src/ring_buffer.rs:842-853 | different places are different cells |
| RingBuffer.PushAppends | src/ring_buffer.rs:134-175 | push appends to the queue from any head, with and without growing; a full ring grows to the larger of twice its capacity and the minimum |
| RingBuffer.PopRemovesFirst | src/ring_buffer.rs:178-195 | pop removes the first element, and answers none exactly for the empty queue |
| RingBuffer.SlicesAreContents | src/ring_buffer.rs:105-118 | the two slices, one after the other, are the queue |
| RingBuffer.NthIsNexts | src/ring_buffer.rs:772-810 | `nth(n)` equals n discarded nexts and one more: result, what is dropped in which order, and what is left, across the end of the array |
| RingBuffer.ExactlyOnce | src/ring_buffer.rs:121-195 | over any run of push, pop, next, nth and clear every element is moved out once, dropped once or still live, in order |
| RingBuffer.AmortizedGrowth | src/ring_buffer.rs:134-175 | over any run from any initial capacity, growing copies fewer than two elements a push |
| RingBuffer.CapacityNeverShrinks | src/ring_buffer.rs:856-861 | growing at least doubles the capacity, and nothing shrinks it |
| RingBufferCode.RingIndex | src/ring_buffer.rs:842-853 | computed on machine words without leaving them, it is that cell |
| RingBufferCode.RingIndexIsRemainder | src/ring_buffer.rs:842-853 | and so the remainder of the sum |
| RingBufferCode.RingBuffer.AsSlices | src/ring_buffer.rs:105-118 | the slices returned are the queue in order |
| RingBufferCode.RingBuffer.Clear | src/ring_buffer.rs:121-132 | empties the ring and drops each live element once, in order |
| RingBufferCode.RingBuffer.Push | src/ring_buffer.rs:134-175 | in place: appends, or panics and changes nothing exactly if the ring is full and the new capacity overflows a word or its bytes exceed isize::MAX; the new capacity is twice the old one, and at least 8 elements of one byte, 4 of up to 1024 bytes, or 1 |
| RingBufferCode.RingBuffer.PushRotated | src/ring_buffer.rs:148-173 | in place: a full ring becomes a longer one with the same elements and one more |
| RingBufferCode.RingBuffer.Rotated | src/ring_buffer.rs:149-166 | the two copies unroll the ring to the start of a longer array |
| RingBufferCode.RingBuffer.Pop | src/ring_buffer.rs:178-195 | in place: removes the first element |
| RingBufferCode.Drain.Next | src/ring_buffer.rs:736-759 | in place: removes the first element |
| RingBufferCode.Drain.Nth | src/ring_buffer.rs:772-810 | in place: skips n elements, drops each of them once and in order, and takes the next |
| RingBufferCode.Drain.Drop | src/ring_buffer.rs:727-731 | drops what is left, once and in order |
| FlipBuffer.ClaimsAreDisjoint | src/flip_queue.rs:107-166 | no two claims, of pushes or of pops, share a cell |
| FlipBuffer.WriteKeepsContents | src/flip_queue.rs:113-123 | writing a claimed cell leaves the elements alone |
| FlipBuffer.FlushContents | src/flip_queue.rs:65-96 | a flush with overshooting counters leaves the elements no pop has claimed, followed by the claimed pushes in the order of their claims |
| FlipBufferCode.FlipBuffer.Flush | src/flip_queue.rs:65-96 | in place: the queue stays what it is and the ring becomes equal to it |
| FlipBufferCode.FlipBuffer.PushSync | src/flip_queue.rs:107-131 | appends, or refuses exactly when as many pushes have begun since the last flush as there were free cells |
| FlipBufferCode.FlipBuffer.PopSync | src/flip_queue.rs:146-166 | takes the first element, or finds none exactly when pops have claimed all of the ring |
| FlipBufferCode.FlipBuffer.Push | src/flip_queue.rs:136-139 | appends, growing if need be, or panics exactly if the queue fills a ring whose grown capacity, in the same numbers, overflows a word or has too many bytes |
| FlipBufferCode.FlipBuffer.Pop | src/flip_queue.rs:171-174 | takes the first element of the queue, none exactly if it is empty |
| FlipBufferCode.FlipBuffer.Clear | src/flip_queue.rs:99-102 | drops every element of the queue once, in order |
| FlipBufferCode.FlipBuffer.Drain | src/flip_queue.rs:181-186 | hands out an iterator over exactly the queue |
| FlipBufferCode.FlipBuffer.SwapBuffer | src/flip_queue.rs:188-191 | exchanges the queue for the contents of the caller's ring |
| FlipQueueLinear.StepSimulated | src/flip_queue.rs:309-384 | every step of any thread keeps the invariant and is a step of the atomic FIFO queue or none |
| FlipQueueLinear.PushClaimSimulated | src/flip_queue.rs:107-111 | a push takes effect at its fetch_add |
| FlipQueueLinear.PopClaimSimulated | src/flip_queue.rs:146-150 | a pop takes effect at its fetch_add |
| FlipQueueLinear.CheckSimulated | src/flip_queue.rs:350-353 | `pop_sync` finding no push begun means an empty queue at that load |
| FlipQueueLinear.WriteSimulated | src/flip_queue.rs:119-123 | writing a claimed cell disturbs no other claim and no answer |
| FlipQueueLinear.FlushedQueue | src/flip_queue.rs:65-96 | under the exclusive lock every cell that the flush admits has been written, and the flushed ring is the queue |
| FlipQueueLinear.CriticalIsFifo | src/flip_queue.rs:328-383 | what the slow paths, draining and swapping do to the flushed ring is a FIFO step |
| FlipQueueRuns.StepEvent | src/flip_queue.rs:309-384 | each step is at most one event of the atomic queue, and a legal one |
| FlipQueueRuns.Linearizable | src/flip_queue.rs:309-384 | every run, calls and returns in their order, is a run of the atomic FIFO queue in which each call takes effect once between its invocation and its response |
| FlipQueueRuns.Conservation | src/flip_queue.rs:65-191 | what was there and what was pushed or swapped in equals, as a sequence, what was popped, drained or swapped out followed by what is there |
| FlipQueueRuns.AccessesAreDisjoint | src/flip_queue.rs:107-160 | two threads about to touch cells touch different ones, both in bounds |
| FlipQueueRuns.TryPushDeclines | src/flip_queue.rs:309-313 | `try_push_sync` declines exactly when as many pushes have begun since the last flush as there were free cells, that is, when the queue and the cells claimed by pops together fill the buffer; it then changes nothing of the queue |
| FlipQueueRuns.TryPopDeclines | src/flip_queue.rs:338-341 | `try_pop_sync` finds nothing exactly when the queue consists of claimed, unflushed pushes |
| FlipQueueRuns.TryPopMissesClaimedPush | src/flip_queue.rs:145-166 | so it is no FIFO pop: a run of a fresh queue into a state in which the queue has an element and it finds none |
| FlipQueueRuns.ForeignKeeps | src/flip_queue.rs:107-166 | nothing the others do changes the answer that a claim has coming |
| FlipQueueRuns.ForeignEvents | src/flip_queue.rs:309-384 | nothing the others do is an event of this thread's calls |
| FlipQueueProgress.CallsComplete | src/flip_queue.rs:309-384 | from every reachable state any open call can be brought to its return, threads only going on with the calls they have made |
| FlipQueueCode.Queue.TryPushSync | src/flip_queue.rs:309-313 | one call: the thread's events are its invocation, one effect, which is the FIFO step at the instant named, and its response with that answer; if the lock has kept it waiting, the invocation only |
| FlipQueueCode.Queue.PushSync | src/flip_queue.rs:319-323 | one call that appends its value exactly once, on the fast or the slow path; no effect yet while it waits for the lock |
| FlipQueueCode.Queue.PushSlow | src/flip_queue.rs:328-331 | the slow path appends exactly once, under the exclusive lock |
| FlipQueueCode.Queue.TryPopSync | src/flip_queue.rs:338-341 | one call that takes the first element exactly once, or declines |
| FlipQueueCode.Queue.PopSync | src/flip_queue.rs:343-357 | one call that takes the first element exactly once, or finds the queue empty at that instant |
| FlipQueueCode.Queue.PopSlow | src/flip_queue.rs:359-362 | the same under the exclusive lock |
| FlipQueueCode.Queue.DrainLocking | src/flip_queue.rs:372-375 | one call that at one instant takes some first elements, drops the others and leaves an empty queue |
| FlipQueueCode.Queue.SwapBuffer | src/flip_queue.rs:380-383 | one call that at one instant exchanges the queue for the caller's ring |
| FlipQueueCode.Queue.ClaimPush | src/flip_queue.rs:107-129 | the fetch_add and its branch: a push that gets a cell has taken effect |
| FlipQueueCode.Queue.ReadCell | src/flip_queue.rs:152-159 | the claimed cell still holds what the claim took, whatever happened since |
| FlipQueueCode.Queue.LoadPushed | src/flip_queue.rs:350-353 | reading zero is the instant at which the queue was empty |
| FlipQueueCode.Queue.IsLinearizable | src/flip_queue.rs:247-384 | the events of all calls, as the methods record them, are together a run of the atomic FIFO queue |
| SpinFlipQueue.GuardAdmits | src/spin.rs:123-310 | a guard of the spin lock is given only when the queue's abstract lock would admit the thread |
| SpinFlipQueue.Refines | src/flip_queue.rs:247-384 | every run over the spin lock's word is a run of the queue over an ideal reader-writer lock |
| SpinFlipQueue.SpinQueueIsFifo | src/flip_queue.rs:247-384 | so the queue with its spin lock is linearizable and conserves elements, with nothing assumed of the lock |
| SpinFlipQueueProgress.CallsComplete | src/flip_queue.rs:247-384 | with the spin lock, too, any call open in a reachable state can be brought to its return |
| StatePtr.PackUnpack | src/state_ptr.rs:143-216 | for every alignment, packing an aligned pointer with a state in range does not carry and unpacks to the same pair |
| StatePtr.UnpackPack | src/state_ptr.rs:206-216 | every word is the packing of what it unpacks to |
| StatePtr.UpdatesAreIndependent | src/state_ptr.rs:189-202 | `with_state` changes only the state and `with_ptr` only the pointer |
| StatePtr.WordEqualsPair | src/state_ptr.rs:336-347 | comparing words is comparing pairs |
| StatePtr.RoomForState | src/state_ptr.rs:143-145 | even the last aligned address has room for every state |
| StatePtr.NewState | src/state_ptr.rs:63-69 | accepts exactly the states below the alignment |
| StatePtr.TruncatedState | src/state_ptr.rs:75-77 | a state in range, and the same one if it was in range |
| StatePtr.EightBitStatesFit | src/condvar.rs:19-24 | at the alignment of wait-list nodes no 8-bit state is ever truncated |
| StatePtr.MaskIsRemainder | src/state_ptr.rs:117-120 | for every alignment, keeping the bits that a word has in common with the mask is taking the remainder |
| StatePtr.AndIsRemainder | src/state_ptr.rs:117-120 | the bits below any power of two make up the remainder by it |
| StatePtr.NodeMaskIsRemainder | src/condvar.rs:19-24 | so it is on the bits of a machine word, at the alignment of wait-list nodes |
| StatePtr.AtomicPtrState.Store | src/state_ptr.rs:307-309 | stores the pair |
| StatePtr.AtomicPtrState.Swap | src/state_ptr.rs:312-314 | exchanges pairs |
| StatePtr.AtomicPtrState.CompareExchange | src/state_ptr.rs:336-347 | on whole words, it compares and exchanges pairs |
| CondVarSafety.StepInv | src/condvar.rs:83-502 | every step of any thread keeps: live nodes are those on the stacks of waiting threads; the queued list and the detached ones are acyclic and disjoint; nobody is forgotten; a woken thread in park is owed its token |
| CondVarSafety.PushInv | src/condvar.rs:208-236 | pushing a node at a reused address keeps all that, even if the exchange succeeds on a stale pointer |
| CondVarSafety.LeaveInv | src/condvar.rs:224-229 | so does leaving with one's node |
| CondVarSafety.MarkInv | src/condvar.rs:185-191 | so does setting `ready`, after which the owner may leave |
| CondVarSafety.DetachInv | src/condvar.rs:433-455 | so does taking the list off the word |
| CondVarRuns.WaitListSafe | src/condvar.rs:170-192 | in every reachable state no dead memory has been touched, the queued list and the detached ones are proper lists without a common node, and a node about to be read or marked is live, unwoken, and its owner still waits |
| CondVarRuns.NoLostWakeup | src/condvar.rs:202-236 | in every reachable state an unwoken node is queued or in a waker's hands, and a woken thread in park has its token or is owed it |
| CondVarRuns.LeavesOnlyWoken | src/condvar.rs:223-230 | a node goes away only with its owner, after it has been woken |
| CondVarRuns.UpdateTakesTheQueue | src/condvar.rs:142-195 | an update with wake-up takes exactly the nodes queued at its instant; without it only the state changes; a failed exchange changes nothing |
| CondVarRuns.WaitPushes | src/condvar.rs:202-243 | a thread that waits puts a live, unwoken node of its own before the queue exactly if it is to block and the word is still what it read; the state byte stays; else it reads the word again and changes nothing |
| CondVarRuns.StateStays | src/condvar.rs:83-502 | no step but `set`, an optimistic update that succeeds and an update whose exchange succeeds touches the state byte, and these store their state |
| CondVarRuns.StateIsLastStored | src/condvar.rs:83-502 | after every run the state byte is the one stored last |
| CondVarRuns.LooksAtTheWord | src/condvar.rs:137-244 | whatever brings a thread to the closure, first load, failed exchange, or the load after waiting, it holds the word of that instant |
| CondVarRuns.HaveWasThere | src/condvar.rs:137-244 | over every run: what a thread shows the closure was in the word when the thread itself last did a step |
| CondVarRuns.MarksItsList | src/condvar.rs:185-191 | at any time a waker's marked nodes followed by those still to mark are the list it detached |
| CondVarRuns.WalkWakesAll | src/condvar.rs:328-393 | when the walk ends, exactly the detached nodes have been marked, each once and in order |
| CondVarRuns.QueueIsWoken | src/condvar.rs:433-457 | from the instant of an update with wake-up to the end of its walk, whatever the others do, exactly the nodes queued at that instant are marked, each once and from the head on |
| CondVarRuns.ReadyOnlyByWaker | src/condvar.rs:170-192 | `ready` is set only by the waker that holds the node, and never reset while the node lives |
| CondVarCode.WaitList.Set | src/condvar.rs:433-457 | at one instant swaps the state and takes the queued nodes, then marks exactly these, once and in order, and returns the state found |
| CondVarCode.WaitList.WakeAll | src/condvar.rs:444-452 | the pointer walk touches live nodes only, ends, and marks exactly the detached list |
| CondVarCode.WaitList.ReadNode | src/condvar.rs:446-449 | the node walked to is still there |
| CondVarCode.WaitList.MarkReady | src/condvar.rs:450-450 | marks the first node of the rest of the list |
| CondVarCode.WaitList.OptimisticUpdate | src/condvar.rs:83-94 | succeeds exactly if at its instant the list was empty and the state the expected one; otherwise nothing changes |
| CondVarCode.WaitList.UpdateWaitBreakPark | src/condvar.rs:129-251 | one call; round by round the closure is shown the state that was in the word when the thread last looked, and the thread's next step is what it answered; `Ok` means that the closure answered a new state for the state returned, and that at one instant this state was there and was replaced; `Err` that it answered to break for the state returned, which was there at the thread's last look, and none but the last answer was to break |
| CondVarCode.WaitList.UpdateBreak | src/condvar.rs:319-502 | the same for the loops that never wait, with and without wake-up |
| CondVarCode.WaitList.AwaitReady | src/condvar.rs:224-226 | the park loop ends only with the thread's node ready |
| CondVarCode.WaitList.TryLock | src/mutex.rs:50-55 | one exchange, which answers yes exactly if at that instant the mutex was free and nobody waited; the thread is then the one owner; a thread that owned the mutex before is answered no |
| CondVarCode.WaitList.LockPark | src/mutex.rs:64-82 | one call of the fast path and, if it fails, of one update; when it returns the thread is the one owner, otherwise it is still waiting after all its rounds; it does not return to a thread that owned the mutex before |
| CondVarCode.WaitList.Unlock | src/mutex.rs:85-87 | frees the mutex at one instant, wakes exactly the threads queued then, and does nothing else |
| CondVarCode.WaitList.MutexSound | src/mutex.rs:22-114 | whatever the methods and their interference do, an owner that tries or locks again included, there is at most one owner |
| Mutex.MutexSafe | src/mutex.rs:50-113 | in every reachable state, also if owners try or lock again, there is at most one owner and the word says whether there is one; unlocked means no waiters; every unwoken waiter is queued at a held mutex or in the hands of an unlocking thread; a woken thread in park is owed its token |
| Mutex.MutexStepInv | src/mutex.rs:50-113 | every step keeps that, the state byte moving with the ownership |
| Mutex.WakersUnlock | src/mutex.rs:85-87 | waiters taken off the list are in the hands of threads that are unlocking |
| MutexProgress.WaitersAreWoken | src/condvar.rs:223-230 | with nobody holding or unlocking, every waiter has been woken and, if parked, has its token |
| MutexProgress.LockIsObtained | src/mutex.rs:64-113 | unless the owner is itself in `lock`, any thread in the slow path can be brought to own the mutex: owners unlock, wakers go on, and park never has to return without a token |
| MutexProgress.LockerCanBeServed | src/mutex.rs:64-113 | over every run from a fresh mutex: a thread in the slow path can be brought to own the mutex if and only if the owner is not itself in `lock` |
| MutexProgress.OwnerLockedOut | src/mutex.rs:64-82 | once an owner has locked again, nobody gets out of `lock` any more, whatever all threads do |
| MutexProgress.OwnerCanLockItselfOut | src/mutex.rs:64-82 | a run of a fresh mutex into such a state, with a second thread waiting |
| TripleBuffer.FlagsRoundTrip | src/triple.rs:40-42 | what a swap puts into the word is what is read back |
| TripleBuffer.Bits | src/triple.rs:62-88 | an index survives its bits |
| TripleBuffer.SplitValid | src/triple.rs:768-795 | splitting gives each side an element of its own |
| TripleBuffer.SplitSlots | src/triple.rs:768-795 | of a split buffer the producer has the element after the pending one and the consumer the one after that, so the second and the third of a fresh one |
| TripleBuffer.StepIsMailbox | src/triple.rs:225-260 | publish and consume are the operations of a one-place overwriting mailbox, indices stay a permutation, and neither side's writing reaches the mailbox or the other side |
| TripleBuffer.FreshAndConserved | src/triple.rs:225-260 | from any split, with or without a published value pending, over any interleaving: consumed publishes strictly increase, a consume answers true exactly if the latest publish is unconsumed and yields its value, and publishes are consumed, answered false, or pending |
| TripleBuffer.LastConsumed | src/triple.rs:607-616 | in every state reachable from any split it is false exactly if the producer last got back a published value never consumed, which it still holds unless it wrote since |
| TripleBufferCode.Buffer.PublishElement | src/triple.rs:225-237 | one swap: the producer's element becomes pending and published, and the former pending one the producer's |
| TripleBufferCode.Buffer.ConsumeElement | src/triple.rs:253-260 | one swap: the consumer's element becomes pending and unpublished, and the former pending one the consumer's |
| TripleBufferCode.Buffer.SplitMut | src/triple.rs:768-795 | the handles own the two elements that are not pending: the producer the one after it, the consumer the one after that; the producer's starts as if consumed |
| TripleBufferCode.Producer.Publish | src/triple.rs:554-560 | the handle's publish is the mailbox step, and it remembers the answer |
| TripleBufferCode.Producer.Send | src/triple.rs:563-569 | whatever the consumer does between write and swap, the value sent is in the mailbox |
| TripleBufferCode.Producer.Set | src/triple.rs:519-526 | writing reaches the producer's own element only |
| TripleBufferCode.Consumer.Consume | src/triple.rs:718-723 | the handle's consume is the mailbox step |
| TripleBufferCode.Consumer.Replace | src/triple.rs:640-643 | writing through the consumer's handle reaches its own element only |

## Left out

- `src/broad.rs`, `src/rwlock.rs`, `src/arena.rs`, `src/cache.rs`, `src/sync.rs`, `src/sync_loom.rs` and `RawSpin` are not part of this model.
- `lock_api::RawMutex::unlock` for `RawMutex` has an empty body (`src/mutex.rs:140`) and unlocks nothing; the inherent `unlock` is modelled.
- `TripleBuffer::recv` and `recv_into` are not modelled, and nothing is said of the consumer's element after a consume that answered false.
- The iterators of the ring buffer other than `Drain` are not modelled.
- Memory orderings, pointer provenance, `UnsafeCell` casts and alignment attributes: memory is sequentially consistent.
- Zero-sized element types, capacity that an allocator grants beyond the request, and unwinding out of an element's destructor.
- The 64-bit claim counters are unbounded numbers; they do not wrap around.
- Destroying a flip buffer whose counters have not been flushed, and leaking a `Drain` without dropping it.
- `lock_free_wait` and `blocking_wait`, which `src/backoff.rs` lacks, are waits that do nothing; `should_block` may answer anything.
- A closure passed to an update of the wait list is a function of the number of the call and the state; in the protocol it may answer anything. A closure passed to a `..._while` method of the spin lock may answer anything in the protocol and, in the class, answers yes a given number of times.
- `src/condvar.rs` calls the closure again without a bound, and waiting for a lock or a wake-up need not end: the methods of the classes follow such loops for a number of rounds that the caller chooses, and say so in their result.
- A closure passed to a `..._while` method uses the same lock in no other way: a thread inside such a method gives and receives no guards and unlocks nothing.
- FlipQueueCode.Queue.DrainLocking: the closure takes first elements by `next` only and leaves the rest to the iterator's drop, because `nth` is covered on the ring, in `RingBuffer.NthIsNexts`.
- RingBufferCode.RingBuffer.WithCapacity: the panic for more than isize::MAX bytes is not modelled, because a constructor here always yields a ring.
- CondVarCode.WaitList.UpdateBreak: models `update_break_wake` and `update_break_no_wake` as one loop, because they differ only in the wake flag.
- The wrappers `wait`, `wait_for`, `update` and `set_no_wake` of the wait list are special closures and not written out.
- A section under the exclusive lock of the queue is one step: nobody else is inside, which `SpinFlipQueue.GuardAdmits` proves. There the ring may grow without bound; the panic on overflow is modelled in `RingBufferCode.RingBuffer.Push`.
- FlipQueueCode.Queue.PushSync: keeps ring and lock as values in fields, because the ring's work in place is proved in `FlipBufferCode`.
- RawRwSpinSafety.MutualExclusion: supposes at most 2^61 - 2 threads, as do all results in counts of readers and writers, because with more the reader count could leave the word.
- RawRwSpinProgress.AnyRequestIsServed: supposes that owners of guards are in none of the lock's methods, because an owner that waits for the lock itself may never give its guard back.
- RawRwSpinProgress.DeadlockFree: supposes at most SHARED_LOCK_THRESHOLD threads, because with more the debug check would panic.
- SpinFlipQueue.SpinQueueIsFifo: supposes the same, and that a thread in the queue owns no other guard of its lock.
