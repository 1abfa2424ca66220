# Verified models of the DirectShow base classes and two iLBC routines

A Dafny model of the algorithmic parts of the vendored DirectShow base classes
(`BaseClasses`) and of two iLBC routines (`ilbc`), with proofs of what they
promise. `dafny verify dfyconfig.toml` checks the whole project.

| file | subject |
|---|---|
| FixedWidth.dfy, MulDiv.dfy | `llMulDiv` and `Int64x32Div32`: (a*b+d)/c through 128 and 96 bits |
| AllocatorState.dfy | the locked sections of the sample allocator as functions, and its size computations |
| Allocator.dfy | `CMemAllocator` and its free list as objects, refining those functions; the tiling of the block |
| AllocatorProtocol.dfy | any number of threads on one allocator: lazy semaphore, commit, decommit, reference counts |
| OutputPin.dfy | the blocking of `CDynamicOutputPin` |
| BoundedQueue.dfy, MsgThread.dfy | `CQueue` and `CMsgThread` between threads |
| Sequences.dfy, BaseList.dfy | `CBaseList`, the doubly linked list with a node cache, down to its pointers |
| CmdQueue.dfy | `CCmdQueue` and its deferred commands |
| FrameStats.dfy | frame statistics: running sums, `GetStdDev`, `isqrt` |
| EndOfStream.dfy | how a renderer comes to send EC_COMPLETE |
| PinConnect.dfy | `CBasePin::Connect` and what it calls on both pins |
| Codebook.dfy, AnaFilter.dfy | `searchAugmentedCB`, `createAugmentedVec` and `anaFilter` over the reals (sections 3.6.3.3 and 3.3 of RFC 3951) |
| Common.dfy, ThreadCount.dfy, LazySemaphore.dfy | what several modules share; counting threads in a phase; the lazily signalled semaphore |

Objects whose methods update their fields are classes. Each such method is
proved to do to the fields what a function on a value does (`AsState`, `Model`,
`Contents`); those of the renderer are grouped by the lock that protects them.
The protocols are stated about those functions: a run is a
sequence of states and events, each event what one thread does between two
points where it may be interrupted, and a property of runs holds for every
interleaving of any number of threads.

Findings, each proved in the module named:

- `llMulDiv` returns the exact quotient if and only if it is a signed 64-bit
  value. Quotients of 64 magnitude bits pass the overflow guard and wrap; 0/0
  saturates by the signs of a and b (MulDiv.dfy).
- The allocator's header invariant (2) holds as written exactly until a call
  with `AM_GBF_NOWAIT` finds the list empty; each such call leaves one wake-up
  too many. The conclusion that no thread deadlocks survives
  (AllocatorProtocol.dfy).
- `CMemAllocator::SetProperties` only logs an alignment that is not a power of
  two. Every alignment up to the granularity is accepted, and the samples are
  aligned in memory if and only if it is a power of two; at 3 they are not
  (AllocatorState.dfy, Allocator.dfy).
- EC_COMPLETE is sent past the end of the stream and once between two resets,
  but for two senders: a failed `Receive` sends it before the end or before its
  time, and a `Run` without a connection sends it without a record. It is never
  lost unless an active filter is connected while its source thread may not
  wait, which a pin that reconnects while active allows. A thread in `Receive`
  may be left waiting, after the completion, when a change of display takes its
  sample away while paused (EndOfStream.dfy).
- A failing `Connect` leaves the receiver connected when the receiver has
  accepted a type and cannot be disconnected again, which is so for a running
  filter that may reconnect; and a type completed with another success code
  than S_OK is passed by although it connected the pins, and may leave a
  reference to the receiver that is never released. Both conditions are exact,
  over every pin on the other side. A specific error from the first list of
  types survives if and only if the second list cannot be enumerated and has no
  specific error of its own (PinConnect.dfy).
- `GetCommandDueFor` is documented to report E_ABORT and to return an AddRef'd
  command; the code reports VFW_E_NOT_FOUND, and its third rule adds no
  reference. The model follows the code (CmdQueue.dfy).
- `GetStdDev` is given one more than the number of samples summed. It computes
  the variance of the samples and one further sample of 0, and its assertion
  x >= 0 holds all the same (FrameStats.dfy).

## Model

| member | source | states |
|---|---|---|
| ArithUtil.LlMulDiv | pjproject/third_party copy/BaseClasses/arithutil.cpp:81-245 | the limb multiplication, extended addition, negation and the three divisions together return `MulDiv(a, b, c, d)` for all 64-bit arguments |
| ArithUtil.Int64x32Div32 | pjproject/third_party copy/BaseClasses/arithutil.cpp:247-364 | the 96-bit form returns the same `MulDiv(a, b, c, d)` for every 64-bit a and all 32-bit b, c, d |
| ArithUtil.MulDivExact | pjproject/third_party copy/BaseClasses/arithutil.cpp:80-81 | for c != 0 the result is (a*b+d)/c truncated toward zero if and only if that quotient is a signed 64-bit value |
| ArithUtil.MulDivReturnsTheQuotient | pjproject/third_party copy/BaseClasses/arithutil.cpp:80-81 | any 64-bit q that is the truncated quotient, characterised by its remainder alone, is the result |
| ArithUtil.MulDivWraps | pjproject/third_party copy/BaseClasses/arithutil.cpp:172-244 | quotients that pass the guard but need a 64th magnitude bit come back off by exactly 2^64 and with the wrong sign |
| ArithUtil.TwoToThe63Wraps | pjproject/third_party copy/BaseClasses/arithutil.cpp:172-244 | 2^62 * 2 / 1 comes back as -2^63 |
| ArithUtil.MulDivSaturates | pjproject/third_party copy/BaseClasses/arithutil.cpp:172-176 | the guard fires for exactly c = 0 and |quotient| >= 2^64, and the extreme value returned lies on the side of the quotient |
| ArithUtil.ZeroOverZero | pjproject/third_party copy/BaseClasses/arithutil.cpp:90-176 | 0/0 saturates by the signs of the factors a and b, although their product is 0 |
| ArithUtil.LongMultiply | pjproject/third_party copy/BaseClasses/arithutil.cpp:92-112 | the four 32-bit products and their carries form the exact 128-bit product |
| ArithUtil.ExtendedAdd | pjproject/third_party copy/BaseClasses/arithutil.cpp:132-152 | the three-part addition with propagated carries is addition modulo 2^128 |
| ArithUtil.AddSigned | pjproject/third_party copy/BaseClasses/arithutil.cpp:114-164 | after adding d and negating on a sign change, magnitude and sign flag stand for a*b+d |
| ArithUtil.Negate128 | pjproject/third_party copy/BaseClasses/arithutil.cpp:158-162 | complement and increment of the two words is negation modulo 2^128 |
| ArithUtil.DivideByWord | pjproject/third_party copy/BaseClasses/arithutil.cpp:190-221 | two chained 64-by-32 divisions give quotient and remainder of the 96-bit dividend |
| ArithUtil.LongDivide | pjproject/third_party copy/BaseClasses/arithutil.cpp:224-242 | the loop on the limbs is 64 rounds of shift, compare and subtract |
| ArithUtil.UnsignedDivide | pjproject/third_party copy/BaseClasses/arithutil.cpp:180-242 | whichever of the three divisions is taken, quotient and remainder of the whole 128-bit dividend result |
| ArithUtil.RoundsDivide | pjproject/third_party copy/BaseClasses/arithutil.cpp:227-242 | 64 rounds from a dividend below 2^64 divisors end with quotient and remainder |
| ArithUtil.RoundsKeepInvariant | pjproject/third_party copy/BaseClasses/arithutil.cpp:227-242 | each round keeps dividend = quotient so far * divisor * 2^(rounds left) + remainder register, with the register below the divisor |
| ArithUtil.EnlargedUnsignedDivide | pjproject/third_party copy/BaseClasses/arithutil.cpp:28-41 | 64 by 32 bits: quotient and remainder, the quotient fitting 32 bits |
| ArithUtil.DivideByWordSkipping | pjproject/third_party copy/BaseClasses/arithutil.cpp:342-361 | the high division may be skipped when the high dividend is below the divisor |
| AllocatorState.RoundedSizeIsLeast | pjproject/third_party copy/BaseClasses/amfilter.cpp:5101-5108 | `SetProperties`: the data area holds what was asked for, and size plus prefix is the least multiple of the alignment that does |
| AllocatorState.AlignedSizeExact | pjproject/third_party copy/BaseClasses/amfilter.cpp:5153-5170 | `Alloc` finds a size exactly when the least aligned size is a positive 32-bit number, and then finds it: no overflow is missed and none is invented |
| AllocatorState.BlockFitsExactly | pjproject/third_party copy/BaseClasses/amfilter.cpp:5126-5190 | a block can be asked for exactly when the count times the least multiple of the alignment that holds prefix and data is below 2^31 |
| AllocatorState.AllocationSucceedsExactly | pjproject/third_party copy/BaseClasses/amfilter.cpp:5126-5223 | with changed, positive properties the allocation succeeds exactly when that product is below 2^31, the block is granted and all samples can be made, and then the change is settled; unchanged properties ask for nothing |
| AllocatorState.SumsWrap | pjproject/third_party copy/BaseClasses/amfilter.cpp:5099-5170 | sums of two 32-bit values come out as they are or off by 2^32 |
| AllocatorState.RemainderIsThatOfC | pjproject/third_party copy/BaseClasses/amfilter.cpp:5099-5170 | the remainder used in both roundings is that of a division truncated toward zero, with the sign of the dividend |
| AllocatorState.RoundingTwiceIsRoundingOnce | pjproject/third_party copy/BaseClasses/amfilter.cpp:5101-5170 | after an accepted `SetProperties` the two roundings agree |
| AllocatorState.PowerOfTwoAccepted | pjproject/third_party copy/BaseClasses/amfilter.cpp:5069-5080 | for a power of two the mask test accepts exactly the divisors of the granularity |
| AllocatorState.AcceptedExactly | pjproject/third_party copy/BaseClasses/amfilter.cpp:5069-5080 | which alignments pass the mask test of a power-of-two granularity: those for which one bit of cbAlign - 1 is clear, so all from 1 up to the granularity |
| AllocatorState.AlignmentIsKeptExactly | pjproject/third_party copy/BaseClasses/amfilter.cpp:5069-5080 | an accepted positive alignment divides the granularity if and only if it is a power of two, and if and only if it divides every address that is a multiple of the granularity |
| AllocatorState.ThreeIsAccepted | pjproject/third_party copy/BaseClasses/amfilter.cpp:5069-5080 | 3 passes the test of every power-of-two granularity but 2, and divides none |
| AllocatorState.CommitKeepsLifeCycle | pjproject/third_party copy/BaseClasses/amfilter.cpp:4886-4922 | `Commit` keeps the life-cycle invariant, and succeeds exactly when the allocator ends up committed |
| AllocatorState.DecommitKeepsLifeCycle | pjproject/third_party copy/BaseClasses/amfilter.cpp:4925-4970 | `Decommit` keeps it, and is pending exactly while samples are outstanding |
| AllocatorState.ReleaseKeepsLifeCycle | pjproject/third_party copy/BaseClasses/amfilter.cpp:4795-4845 | `ReleaseBuffer` keeps it, and finishes a pending decommit with exactly the last sample |
| AllocatorState.SectionsKeepNotified | pjproject/third_party copy/BaseClasses/amfilter.h:1415-1415 | every locked section keeps header invariant (1), and its counterpart for a decommitted allocator |
| AllocatorState.SectionsKeepPromise | pjproject/third_party copy/BaseClasses/amfilter.h:1394-1410 | no locked section changes waiting + semaphore count but the one that tells a thread to wait |
| Allocator.SampleList.Add | pjproject/third_party copy/BaseClasses/amfilter.h:1366-1372 | the pointer list refines a sequence: a sample is put at the head |
| Allocator.SampleList.RemoveHead | pjproject/third_party copy/BaseClasses/amfilter.h:1373-1381 | the head is taken off, or null returned from an empty list |
| Allocator.SampleList.Remove | pjproject/third_party copy/BaseClasses/amfilter.cpp:4999-5012 | a sample is unlinked from anywhere, and an absent one changes nothing |
| Allocator.MemAllocator.SetProperties | pjproject/third_party copy/BaseClasses/amfilter.cpp:5054-5116 | which of the four answers comes when, in the fields: an accepted request leaves the count, alignment and prefix asked for, the rounded size and the mark of a change, a refused one leaves everything |
| Allocator.MemAllocator.Alloc | pjproject/third_party copy/BaseClasses/amfilter.cpp:5126-5223 | refused exactly for a count, size or alignment that is not positive; with changed properties it succeeds exactly when the block fits, is granted and all samples can be made; the samples made are fresh, distinct, as many as memory allows, tile the block and are the free list |
| Allocator.MemAllocator.ReallyFree | pjproject/third_party copy/BaseClasses/amfilter.cpp:5245-5270 | the free list is drained and the block released |
| Allocator.MemAllocator.Commit | pjproject/third_party copy/BaseClasses/amfilter.cpp:4886-4922 | committed afterwards exactly on success; a committed or decommitting allocator keeps its samples and its reference to itself, another takes one reference; the life cycle is kept |
| Allocator.MemAllocator.Decommit | pjproject/third_party copy/BaseClasses/amfilter.cpp:4925-4970 | never committed afterwards, pending exactly while samples are out, the reference to be released exactly when none is, and every waiting thread told; the free list is untouched |
| Allocator.MemAllocator.TryGetBuffer | pjproject/third_party copy/BaseClasses/amfilter.cpp:4749-4760 | the head of the free list is handed out while committed; a committed allocator without one counts one more waiter; nothing else changes |
| Allocator.MemAllocator.ReleaseBuffer | pjproject/third_party copy/BaseClasses/amfilter.cpp:4795-4845 | the sample is the new head, nobody is left uncounted among the waiting, and the pending decommit ends exactly with the last sample |
| Allocator.MemAllocator.NotifySample | pjproject/third_party copy/BaseClasses/amfilter.cpp:4876-4883 | the semaphore grows by the number of waiting threads unless that passes its maximum, and the count is cleared |
| Allocator.TiledSamplesAreDisjoint | pjproject/third_party copy/BaseClasses/amfilter.cpp:5177-5223 | two samples never share a byte, prefixes included; all lie in the block, each at a multiple of the alignment from its start |
| Allocator.TiledSamplesAreAligned | pjproject/third_party copy/BaseClasses/amfilter.cpp:5177-5223 | for a power of two the prefixes are aligned in memory as well |
| Allocator.SlicesAreAlignedExactly | pjproject/third_party copy/BaseClasses/amfilter.cpp:5177-5223 | an accepted alignment aligns every slice of every block on the granularity if and only if it is a power of two |
| Allocator.MisalignedAtThree | pjproject/third_party copy/BaseClasses/amfilter.cpp:5177-5223 | an allocator that accepted 3 and got its block at address 0x10000 has a first sample that is off by 1 |
| AllocatorProtocol.RunKeepsInvariant | pjproject/third_party copy/BaseClasses/amfilter.cpp:4735-4993 | every run of any number of threads keeps the joint invariant of samples, life cycle, notification and promised wake-ups |
| AllocatorProtocol.ParkedThreadCanWake | pjproject/third_party copy/BaseClasses/amfilter.h:1418-1425 | no deadlock: a parked thread with a sample to take or a rejection to receive has a token, and there is one for every parked thread |
| AllocatorProtocol.HeaderInvariants | pjproject/third_party copy/BaseClasses/amfilter.h:1412-1416 | header invariant (1) holds; (2) holds with >=, and with equality if and only if no `AM_GBF_NOWAIT` call found the list empty |
| AllocatorProtocol.SurplusCountsTimeouts | pjproject/third_party copy/BaseClasses/amfilter.cpp:4747-4772 | waiting + semaphore count exceeds the parked threads by exactly the number of those calls |
| AllocatorProtocol.TimeoutLeavesAWakeup | pjproject/third_party copy/BaseClasses/amfilter.cpp:4747-4772 | a run of four steps, the last such a call, after which one wake-up is promised although no thread is parked |
| AllocatorProtocol.LifeCycleHolds | pjproject/third_party copy/BaseClasses/amfilter.cpp:4795-4993 | free + outstanding = allocated; a pending decommit is not committed and waits for some sample; an idle allocator has all samples back; one self-reference exactly while a flag is set |
| AllocatorProtocol.OutstandingBuffersAreSafe | pjproject/third_party copy/BaseClasses/amfilter.cpp:4886-5270 | no step destroys an outstanding sample, reallocates, or changes the properties |
| AllocatorProtocol.GrantedSampleIsExclusive | pjproject/third_party copy/BaseClasses/amfilter.cpp:4774-4782 | the sample `GetBuffer` returns has reference count 0, is off the free list, and no other thread has it |
| AllocatorProtocol.FreePlusOutstanding | pjproject/third_party copy/BaseClasses/amfilter.cpp:4795-4845 | conservation of samples |
| OutputPin.OperationsKeepValid | pjproject/third_party copy/BaseClasses/amfilter.cpp:4487-4521 | every operation keeps what `AssertValid` checks, together with the event's state and the fate of all requests |
| OutputPin.UnblockUndoesBlock | pjproject/third_party copy/BaseClasses/amfilter.cpp:4075-4168 | unblocking restores the pin apart from the log of requests |
| OutputPin.SecondBlockIsRefused | pjproject/third_party copy/BaseClasses/amfilter.cpp:4075-4115 | after an accepted request the thread that made it is told that it blocked the pin itself and any other that the pin is blocked, pending or not, and nothing changes; a failing `DuplicateHandle` leaves a pin that can be blocked later |
| OutputPin.DynamicOutputPin.Block | pjproject/third_party copy/BaseClasses/amfilter.cpp:3986-4070 | bad flags, an unblock with an event and an event that cannot be reset or created are refused and change nothing; otherwise the request is made or the pin unblocked |
| OutputPin.DynamicOutputPin.AsynchronousBlockOutputPin | pjproject/third_party copy/BaseClasses/amfilter.cpp:4075-4115 | a second block and a failing `DuplicateHandle` are refused and change nothing; otherwise the pin is pending or, without users, blocked, and stays valid |
| OutputPin.GrantingSettlesTheRequest | pjproject/third_party copy/BaseClasses/amfilter.cpp:4118-4138 | `BlockOutputPin` on a pin whose last user left or that has none: the pin is valid and blocked, every request made so far has been signalled once and its handle closed once, and no other request was touched |
| OutputPin.DynamicOutputPin.UnblockOutputPin | pjproject/third_party copy/BaseClasses/amfilter.cpp:4141-4168 | the pin is not blocked, its event signalled, no caller and no handle remembered, and a pending request settled; on a pin not blocked it is told and changes nothing |
| OutputPin.DynamicOutputPin.TryStartUsing | pjproject/third_party copy/BaseClasses/amfilter.cpp:4171-4231 | a user is counted exactly when the pin is not blocked |
| OutputPin.DynamicOutputPin.StopUsingOutputPin | pjproject/third_party copy/BaseClasses/amfilter.cpp:4234-4250 | one user fewer, and the pin blocked exactly if the block was pending and this was the last |
| OutputPin.RunKeepsInvariant | pjproject/third_party copy/BaseClasses/amfilter.cpp:4075-4258 | every interleaving keeps validity and the user count |
| OutputPin.BlockingHolds | pjproject/third_party copy/BaseClasses/amfilter.cpp:4487-4521 | blocked implies no user; the handle is held iff pending; pending implies a user; the unblock event is signalled iff not blocked |
| OutputPin.WaitingUserCanGoOn | pjproject/third_party copy/BaseClasses/amfilter.cpp:4183-4220 | a waiting thread is never stranded once the pin is unblocked or the stop event set |
| OutputPin.RequestsAreSettledOnce | pjproject/third_party copy/BaseClasses/amfilter.cpp:4075-4168 | each accepted request is signalled and closed exactly once, unless it is the one pending |
| OutputPin.SettledForEver | pjproject/third_party copy/BaseClasses/amfilter.cpp:4075-4168 | a settled request is never touched again |
| OutputPin.LastUserCompletesBlock | pjproject/third_party copy/BaseClasses/amfilter.cpp:4234-4250 | when the only user leaves a pending pin it is blocked and the requester told |
| BoundedQueue.Queue.PutQueueObject | pjproject/third_party copy/BaseClasses/wxutil.h:319-337 | a call by itself appends to the contents |
| BoundedQueue.Queue.GetQueueObject | pjproject/third_party copy/BaseClasses/wxutil.h:297-317 | a call by itself returns and removes the oldest object |
| BoundedQueue.Queue.StoreObject | pjproject/third_party copy/BaseClasses/wxutil.h:328-331 | the critical section refines the step `Store` |
| BoundedQueue.Queue.FetchObject | pjproject/third_party copy/BaseClasses/wxutil.h:307-310 | the critical section refines the fetching step |
| BoundedQueue.SemaphoresCountSlots | pjproject/third_party copy/BaseClasses/wxutil.h:297-337 | in every state of a run the two semaphores are the free and the filled slots less those promised to threads between their wait and their release; a wait that returns finds a slot or an object, and each release adds one |
| BoundedQueue.StoreAppends | pjproject/third_party copy/BaseClasses/wxutil.h:328-331 | with room, storing into the ring appends and destroys nothing unread |
| BoundedQueue.FetchTakesOldest | pjproject/third_party copy/BaseClasses/wxutil.h:307-310 | fetching takes the oldest object and leaves the rest in order |
| BoundedQueue.StepPreserves | pjproject/third_party copy/BaseClasses/wxutil.h:297-337 | every step keeps the accounting of slots; no semaphore release is refused, and store and fetch always find room and an object |
| BoundedQueue.RunKeepsInvariant | pjproject/third_party copy/BaseClasses/wxutil.h:271-337 | every run of any number of producers and consumers keeps it |
| BoundedQueue.FirstInFirstOut | pjproject/third_party copy/BaseClasses/wxutil.h:297-337 | the k-th object read is the k-th written, and never more than nMax are held |
| BoundedQueue.NoOverwrite | pjproject/third_party copy/BaseClasses/wxutil.h:319-337 | no slot is written while its object is unread |
| BoundedQueue.BlockedOnlyIfFullOrEmpty | pjproject/third_party copy/BaseClasses/wxutil.h:297-337 | with no call under way, producers are held back exactly by a full queue and consumers exactly by an empty one |
| MsgThreads.MsgThread.PutThreadMsg | pjproject/third_party copy/BaseClasses/msgthrd.h:102-111 | refines the posting step |
| MsgThreads.MsgThread.TryGetThreadMsg | pjproject/third_party copy/BaseClasses/wxutil.cpp:335-352 | refines one round of the loop: the head, or one more waiter |
| MsgThreads.RunKeepsInvariant | pjproject/third_party copy/BaseClasses/wxutil.cpp:335-359 | every run keeps order, counts and the empty-or-notified rule |
| MsgThreads.EachMessageOnceInOrder | pjproject/third_party copy/BaseClasses/wxutil.cpp:335-359 | messages are taken in the order posted, each exactly once; the rest is the queue |
| MsgThreads.NoLostWakeup | pjproject/third_party copy/BaseClasses/msgthrd.h:102-111 | waiting + semaphore count = waiting consumers, and a nonempty queue has no unannounced waiter |
| MsgThreads.ParkedConsumerCanWake | pjproject/third_party copy/BaseClasses/wxutil.cpp:342-352 | a parked consumer with a message queued can wake |
| BaseLists.NodeCache.AddToCache | pjproject/third_party copy/BaseClasses/wxlist.h:136-145 | the chain of spare nodes refines a stack of bounded size |
| BaseLists.NodeCache.RemoveFromCache | pjproject/third_party copy/BaseClasses/wxlist.h:146-157 | the most recent spare node, or null |
| BaseLists.BaseList.GetHeadPositionI | pjproject/third_party copy/BaseClasses/wxlist.cpp:186-190 | the first node, null for the empty list |
| BaseLists.BaseList.GetTailPositionI | pjproject/third_party copy/BaseClasses/wxlist.cpp:193-197 | the last node |
| BaseLists.BaseList.Next | pjproject/third_party copy/BaseClasses/wxlist.h:261-268 | the next position in the cycle of n+1 positions |
| BaseLists.BaseList.Prev | pjproject/third_party copy/BaseClasses/wxlist.h:271-278 | the previous position |
| BaseLists.BaseList.PositionsFormACycle | pjproject/third_party copy/BaseClasses/wxlist.h:237-242 | `Next` and `Prev` are inverse on all positions, null included |
| BaseLists.BaseList.GetNextI | pjproject/third_party copy/BaseClasses/wxlist.cpp:220-246 | the object and the following position; null stays null |
| BaseLists.BaseList.FindI | pjproject/third_party copy/BaseClasses/wxlist.cpp:278-289 | the first position holding the object; null exactly when it is absent |
| BaseLists.BaseList.AddTailI | pjproject/third_party copy/BaseClasses/wxlist.cpp:396-441 | insertion at the end, from the cache first; failure changes nothing |
| BaseLists.BaseList.AddHeadI | pjproject/third_party copy/BaseClasses/wxlist.cpp:447-486 | insertion at the front |
| BaseLists.BaseList.AddAfterI | pjproject/third_party copy/BaseClasses/wxlist.cpp:544-590 | insertion behind a position; behind null is at the head |
| BaseLists.BaseList.AddBeforeI | pjproject/third_party copy/BaseClasses/wxlist.cpp:614-660 | insertion before a position; before null is at the tail |
| BaseLists.BaseList.AddBeforeIsAddAfterPrev | pjproject/third_party copy/BaseClasses/wxlist.h:256-259 | inserting before p and after Prev(p) is the same insertion for every p, null included |
| BaseLists.BaseList.RemoveI | pjproject/third_party copy/BaseClasses/wxlist.cpp:335-389 | the node is cut out, its object returned, and the node cached if there is room |
| BaseLists.BaseList.RemoveHeadI | pjproject/third_party copy/BaseClasses/wxlist.cpp:295-306 | the first object is removed |
| BaseLists.BaseList.RemoveTailI | pjproject/third_party copy/BaseClasses/wxlist.cpp:313-324 | the last object is removed |
| BaseLists.BaseList.AddTail | pjproject/third_party copy/BaseClasses/wxlist.cpp:494-507 | the other list's objects are appended in order, as many as nodes can be had; the positions there were stay in the list, in order, around those added |
| BaseLists.BaseList.AddHead | pjproject/third_party copy/BaseClasses/wxlist.cpp:517-537 | they are prepended in order; the positions there were stay in the list, in order, around those added |
| BaseLists.BaseList.AddAfter | pjproject/third_party copy/BaseClasses/wxlist.cpp:596-608 | they are inserted behind a position in order; the positions there were stay in the list, in order, around those added |
| BaseLists.BaseList.AddBefore | pjproject/third_party copy/BaseClasses/wxlist.cpp:664-676 | they are inserted before a position in order; the positions there were stay in the list, in order, around those added |
| BaseLists.BaseList.MoveToTail | pjproject/third_party copy/BaseClasses/wxlist.cpp:693-752 | exactly the nodes up to the position move to the end of the other list, the same nodes in the same order; both lists stay well formed, null and full moves included |
| BaseLists.BaseList.MoveToHead | pjproject/third_party copy/BaseClasses/wxlist.cpp:767-816 | the mirror image |
| BaseLists.BaseList.Reverse | pjproject/third_party copy/BaseClasses/wxlist.cpp:822-856 | one pass swapping both pointers of each node reverses the sequence of the same nodes |
| CmdQueues.CmdQueue.Insert | pjproject/third_party copy/BaseClasses/ctlutil.cpp:2228-2260 | the command joins its list as the last queued, the list stays ordered by time and, for equal times, by insertion |
| CmdQueues.OrderedIsUnique | pjproject/third_party copy/BaseClasses/ctlutil.cpp:2241-2256 | an ordered list is determined by the commands in it, so that `Insert` leaves no choice of place |
| CmdQueues.OrderIsByTimeThenInsertion | pjproject/third_party copy/BaseClasses/ctlutil.cpp:2228-2260 | the order kept is by time and, for equal times, by the number of the insertion |
| CmdQueues.CmdQueue.DueByTheClock | pjproject/third_party copy/BaseClasses/ctlutil.h:867-882 | some command is due exactly when there is a clock and a presentation time has come by it, or while running a stream time plus the offset |
| CmdQueues.CmdQueue.FirstByTime | pjproject/third_party copy/BaseClasses/ctlutil.cpp:2444-2463 | the command that goes first has the least presentation time of all, counted with the offset, and ties go to the presentation list |
| CmdQueues.CmdQueue.Remove | pjproject/third_party copy/BaseClasses/ctlutil.cpp:2263-2297 | exactly the command is taken off and its reference dropped; not found changes nothing |
| CmdQueues.CmdQueue.Cancel | pjproject/third_party copy/BaseClasses/ctlutil.cpp:2008-2026 | a cancelled command is off the queue, and cancelling again is reported |
| CmdQueues.CmdQueue.Postpone | pjproject/third_party copy/BaseClasses/ctlutil.cpp:2053-2079 | a due time is refused and changes nothing; otherwise the same commands are queued, this one at its new time and behind its equals |
| CmdQueues.CmdQueue.GetDueCommand | pjproject/third_party copy/BaseClasses/ctlutil.cpp:2430-2481 | a command is returned exactly when there is a clock and some presentation time, or while running some stream time plus offset, has come; it is then the one with the least such time, presentation commands before stream commands at equal times, and holds one more reference |
| CmdQueues.CmdQueue.GetCommandDueFor | pjproject/third_party copy/BaseClasses/ctlutil.cpp:2484-2543 | not found exactly when no presentation time has come by the clock, no stream time is up to the time asked for, and while running no presentation time is up to that time plus the offset; these three rules decide in this order, the command is the earliest in its list, and the third rule adds no reference |
| CmdQueues.ThirdRuleAddsNoReference | pjproject/third_party copy/BaseClasses/ctlutil.cpp:2484-2543 | one command queued at time 5 and asked for at 5 comes with two references without a clock, with three with one |
| CmdQueues.CmdQueue.HeadGoesFirst | pjproject/third_party copy/BaseClasses/ctlutil.cpp:2444-2463 | the head of an ordered list goes before all of it |
| CmdQueues.CmdQueue.Run | pjproject/third_party copy/BaseClasses/ctlutil.cpp:2391-2404 | a queued stream-time command becomes due exactly when its time plus the offset has come; presentation times are due as before; the queue keeps its order and content |
| CmdQueues.CmdQueue.EndRun | pjproject/third_party copy/BaseClasses/ctlutil.cpp:2407-2418 | no stream-time command is due any more; the others are due as before |
| CmdQueues.CmdQueue.SetSyncSource | pjproject/third_party copy/BaseClasses/ctlutil.cpp:2300-2321 | without a clock nothing is due; with one, exactly the commands whose time is known and has come |
| FrameStatistics.Renderer.RecordFrameLateness | pjproject/third_party copy/BaseClasses/renbase.cpp:1968-2013 | the running sums are those of the clamped samples of all frames since the reset but the first two or three, and stay within 64 bits |
| FrameStatistics.Renderer.ResetStreamingTimes | pjproject/third_party copy/BaseClasses/renbase.cpp:1841-1858 | all sums and the count start anew |
| FrameStatistics.ConversionsByQuotient | pjproject/third_party copy/BaseClasses/renbase.cpp:1968-2013 | from the truncated quotient by 10000: lateness is held between -1000 and 1000, an inter-frame time outside 0 to 1000 counts as 1000 |
| FrameStatistics.SquareOfSum | pjproject/third_party copy/BaseClasses/renbase.cpp:2772-2787 | n * sum of squares >= square of the sum, for any samples |
| FrameStatistics.VarianceInRange | pjproject/third_party copy/BaseClasses/renbase.cpp:2784-2788 | although n is one more than the samples summed, the value passed to `isqrt` lies in [0, 10^6]: the assertion x >= 0 holds |
| FrameStatistics.ISqrt | pjproject/third_party copy/BaseClasses/renbase.cpp:2730-2751 | never below the square root for x < 2^30, and for x <= 10^6 the root rounded down or one more; no `int` overflow |
| FrameStatistics.NewtonStep | pjproject/third_party copy/BaseClasses/renbase.cpp:2740-2748 | a step never falls below the root and shrinks the distance quadratically |
| FrameStatistics.Renderer.GetStdDev | pjproject/third_party copy/BaseClasses/renbase.cpp:2757-2791 | 0 without a clock or without samples, otherwise the root, rounded down, or one more, of the variance of the samples and one further sample of 0, which lies in [0, 10^6] |
| FrameStatistics.Renderer.GetDevSyncOffset | pjproject/third_party copy/BaseClasses/renbase.cpp:2796-2804 | 0 without a clock or with at most two frames, otherwise the root, or one more, of that variance for the lateness of all frames but the first two |
| FrameStatistics.Renderer.GetJitter | pjproject/third_party copy/BaseClasses/renbase.cpp:2810-2819 | 0 without a clock or with at most three frames, otherwise the root, or one more, of that variance for the inter-frame times of all but the first three |
| EndOfStreamNotification.StepKeepsOrder | pjproject/third_party copy/BaseClasses/renbase.cpp:1302-1327 | every step of every thread keeps: delivery is recorded only while streaming and with no timer, and without a connection there is no end of stream |
| EndOfStreamNotification.StepIsCounted | pjproject/third_party copy/BaseClasses/renbase.cpp:1302-1327 | in every step but a reset the events sent are the deliveries newly recorded, and one more for a `Run` without a connection; a reset sends nothing |
| EndOfStreamNotification.CompletesCounted | pjproject/third_party copy/BaseClasses/renbase.cpp:1330-1348 | in every run: events, deliveries, unconnected `Run`s and resets are accounted for together |
| EndOfStreamNotification.CompleteOncePerRun | pjproject/third_party copy/BaseClasses/renbase.cpp:1330-1336 | between two resets the events sent are the deliveries recorded, at most one, if and only if the renderer is not run unconnected |
| EndOfStreamNotification.CompletesAreBounded | pjproject/third_party copy/BaseClasses/renbase.cpp:1330-1336 | a new renderer sends at most one event more than it was reset, apart from one for each unconnected `Run` |
| EndOfStreamNotification.UnconnectedRunsSendTwice | pjproject/third_party copy/BaseClasses/renbase.cpp:541-547 | run, paused and run again unconnected, two events are sent without a reset |
| EndOfStreamNotification.LongIsACast | pjproject/third_party copy/BaseClasses/renbase.cpp:1269-1269 | the cast to LONG is the one 32-bit value congruent to its argument modulo 2^32 |
| EndOfStreamNotification.DelayIsTheTimeLeft | pjproject/third_party copy/BaseClasses/renbase.cpp:1263-1285 | as long as the milliseconds left fit a LONG: less than 50 ms are found left exactly when start of the run plus end of the last sample is less than 500000 units of 100 ns ahead of the clock |
| EndOfStreamNotification.SendsExactly | pjproject/third_party copy/BaseClasses/renbase.cpp:1255-1297 | streaming past the end with nothing sent and no timer, EC_COMPLETE is sent and recorded exactly without a clock, with that sum less than 500000 units ahead, or when no timer can be had; otherwise a timer is set and nothing else |
| EndOfStreamNotification.SendsPastTheEnd | pjproject/third_party copy/BaseClasses/renbase.cpp:1255-1327 | when a step sends, the end of the stream was signalled if and only if the sender is neither an unconnected `Run` nor a failed `Receive` before the end; all but the former record it, once; all but these two send, with a clock and a timer to be had, only when start of the run plus end of the last sample is less than 50 ms ahead of the reading |
| EndOfStreamNotification.FailureCompletesBeforeTheEnd | pjproject/third_party copy/BaseClasses/renbase.cpp:1638-1677 | a run in which a refused sample sends EC_COMPLETE although the end of the stream was never signalled |
| EndOfStreamNotification.FailureCompletesEarly | pjproject/third_party copy/BaseClasses/renbase.cpp:1638-1677 | a run in which a sample after the end sends it at once although a timer runs and ten seconds are left |
| EndOfStreamNotification.OperationsEnd | pjproject/third_party copy/BaseClasses/renbase.cpp:418-433 | an operation under way can always take its next section, takes finitely many, and no other thread's step moves it |
| EndOfStreamNotification.StepKeepsInvariant | pjproject/third_party copy/BaseClasses/renbase.cpp:400-1420 | every step but a stranding connection keeps the joint invariant of flags, filter, the operation holding the interface lock and the threads in `Receive` |
| EndOfStreamNotification.RunKeepsInvariant | pjproject/third_party copy/BaseClasses/renbase.cpp:400-1420 | every interleaving without a stranding connection keeps it |
| EndOfStreamNotification.CompletionIsNotLost | pjproject/third_party copy/BaseClasses/renbase.cpp:667-1327 | in every such run: with no operation under way, a streaming renderer past the end has recorded delivery, or has a timer, or a thread in `Receive` has been woken or has its wake-up due; and a sample held while streaming has such a thread |
| EndOfStreamNotification.NeverLostWithoutReconnection | pjproject/third_party copy/BaseClasses/renbase.cpp:796-826 | no completion is lost in any run of a renderer whose pin does not reconnect while active, with no condition on the run |
| EndOfStreamNotification.DueWakes | pjproject/third_party copy/BaseClasses/renbase.cpp:255-283 | a waiting thread whose wake-up is due leaves the wait: by the thread signal, or by the render event once the clock has set it |
| EndOfStreamNotification.RunWakesExactly | pjproject/third_party copy/BaseClasses/renbase.cpp:1369-1403 | `Run` from paused leaves a wake-up due if and only if a sample is held or one was due before |
| EndOfStreamNotification.WaitsWithoutAWakeup | pjproject/third_party copy/BaseClasses/renbase.cpp:1497-1518 | a run in which a thread is left waiting with no wake-up due by a renderer that has completed: its sample came while paused and was taken away by a change of display |
| EndOfStreamNotification.TimerCompletes | pjproject/third_party copy/BaseClasses/renbase.cpp:1231-1297 | the timer's callback sends EC_COMPLETE exactly when there is no clock, start of the run plus end of the last sample is less than 50 ms ahead, or no timer is left, and otherwise leaves everything with a new timer |
| EndOfStreamNotification.ConnectIsSafeExactly | pjproject/third_party copy/BaseClasses/renbase.cpp:736-756 | a connection is never followed by a lost completion if and only if it does not strand: connect an active filter whose source thread may not wait, while neither a flush nor a run-time error keeps samples away |
| EndOfStreamNotification.StrandedLoses | pjproject/third_party copy/BaseClasses/renbase.cpp:1129-1197 | a continuation is given in which such a renderer holds a sample for nobody, and its completion is lost |
| EndOfStreamNotification.StrandingIsReachable | pjproject/third_party copy/BaseClasses/renbase.cpp:541-756 | a run of a reconnecting renderer that comes to a stranding connection: stopped, disconnected, run without a connection |
| EndOfStreamNotification.OperationKeepsInvariant | pjproject/third_party copy/BaseClasses/renbase.cpp:400-826 | an operation that nothing comes between, taken to its end, keeps the invariant |
| EndOfStreamNotification.StopCompletes | pjproject/third_party copy/BaseClasses/renbase.cpp:400-446 | the sections of `Stop` taken together leave no stream, no sample, no end, no delivery and no timer |
| EndOfStreamNotification.BaseRenderer.OnStop | pjproject/third_party copy/BaseClasses/renbase.cpp:400-446 | the method is the operation `Stop` taken to its end; without a connection only the state changes |
| EndOfStreamNotification.BaseRenderer.OnPause | pjproject/third_party copy/BaseClasses/renbase.cpp:457-518 | it is the operation `Pause` taken to its end: streaming, delivery and timer go, the end of the stream is remembered; a pin that fails to become active changes nothing |
| EndOfStreamNotification.BaseRenderer.OnRun | pjproject/third_party copy/BaseClasses/renbase.cpp:530-589 | without a connection EC_COMPLETE is sent at once; otherwise the renderer streams, and past the end without a sample it has completed or set a timer; with a failing pin it is left as it was or, if stopped and activated, paused |
| EndOfStreamNotification.BaseRenderer.OnBeginFlush | pjproject/third_party copy/BaseClasses/renbase.cpp:1609-1618 | it is the operation `BeginFlush` taken to its end: no sample, end, delivery or timer is left and nothing may wait |
| EndOfStreamNotification.BaseRenderer.OnEndFlush | pjproject/third_party copy/BaseClasses/renbase.cpp:1623-1633 | flush and run-time error are over, threads may wait again, and nothing else changes |
| EndOfStreamNotification.BaseRenderer.OnCompleteConnect | pjproject/third_party copy/BaseClasses/renbase.cpp:736-756 | connected, with the abort flag cleared; a running filter streams from then on; the invariant is kept unless the connection strands |
| EndOfStreamNotification.BaseRenderer.OnBreakConnect | pjproject/third_party copy/BaseClasses/renbase.cpp:796-826 | refused exactly for an active filter that does not reconnect; otherwise connection, stream, sample, end, delivery and timer go, and no event is sent |
| EndOfStreamNotification.BaseRenderer.OnEndOfStream | pjproject/third_party copy/BaseClasses/renbase.cpp:667-696 | a stopped, flushing or failed filter takes no notice; otherwise the end is remembered, and streaming without a sample it is recorded as delivered or a timer is set; the invariant is kept |
| EndOfStreamNotification.BaseRenderer.OnTimer | pjproject/third_party copy/BaseClasses/renbase.cpp:1231-1243 | a stray callback does nothing; a due one leaves the end recorded as delivered or another timer; the invariant is kept |
| EndOfStreamNotification.BaseRenderer.OnPrepareReceive | pjproject/third_party copy/BaseClasses/renbase.cpp:1042-1120 | success exactly when the filter is active, neither flushing nor failed nor aborting, holds no sample and has no end, and the sample is accepted; it is then held with its stop time as m_SignalTime and scheduled, unless it is dropped while streaming; a wrong type raises the run-time error; exactly the failures are left for the pin to report; the invariant is kept |
| EndOfStreamNotification.BaseRenderer.OnWaitForRenderTime | pjproject/third_party copy/BaseClasses/renbase.cpp:255-283 | the wait ends by the thread signal first, by the render event otherwise, which is reset and its link forgotten; the invariant is kept |
| EndOfStreamNotification.BaseRenderer.OnRenderDone | pjproject/third_party copy/BaseClasses/renbase.cpp:1180-1197 | the sample is gone, the render event reset and the link forgotten; past the end while streaming, delivery is recorded or a timer set; before it nothing else changes; the invariant is kept |
| EndOfStreamNotification.BaseRenderer.OnReceiveFailed | pjproject/third_party copy/BaseClasses/renbase.cpp:1638-1677 | EC_COMPLETE is sent exactly by a streaming renderer that has not delivered and is neither stopped, flushing, aborting nor failed already; such a filter has failed from then on; the invariant is kept |
| EndOfStreamNotification.BaseRenderer.OnDisplayChange | pjproject/third_party copy/BaseClasses/renbase.cpp:1497-1518 | a connected renderer loses its sample and aborts `Receive`, another is as before; the invariant is kept |
| PinConnection.Pin.Connect | pjproject/third_party copy/BaseClasses/amfilter.cpp:1701-1754 | agreed: both pins point at each other with one reference each and the agreed type; nothing agreed: connections and counts as before, with the error code given; botched: an error, the receiver left connected, and the connecting pin either connected still or not, with the number of references to the receiver that are never released |
| PinConnection.Pin.AttemptConnection | pjproject/third_party copy/BaseClasses/amfilter.cpp:1758-1842 | each attempt ends refused, done or half-open as the hooks of both pins decide, with both connections and both counts given, also when the pin is connected already |
| PinConnection.Pin.TryMediaTypes | pjproject/third_party copy/BaseClasses/amfilter.cpp:1851-1917 | the types are tried in order and the first not passed over decides |
| PinConnection.Pin.AgreeMediaType | pjproject/third_party copy/BaseClasses/amfilter.cpp:1929-1976 | a fully specified type alone, or both enumerations in the order `m_bTryMyTypesFirst` asks for |
| PinConnection.Pin.ReceiveConnection | pjproject/third_party copy/BaseClasses/amfilter.cpp:2043-2135 | success exactly when the pin is free, stopped or able to reconnect while active, of the other direction, and all its overrides agree; it is then connected to the caller with the type and holds one reference more, and otherwise connection and count are as before |
| PinConnection.Pin.Disconnect | pjproject/third_party copy/BaseClasses/amfilter.cpp:2140-2151 | refused, with nothing changed, unless stopped; otherwise the connection and its reference go, if `BreakConnect` agrees |
| PinConnection.Pin.DisconnectInternal | pjproject/third_party copy/BaseClasses/amfilter.cpp:2153-2188 | a failing `BreakConnect` keeps the connection; no connection is not an error |
| PinConnection.ReceivesExactly | pjproject/third_party copy/BaseClasses/amfilter.cpp:2043-2135 | a receiver accepts exactly when it is free, stopped or able to reconnect while active, of the other direction, and its `CheckConnect`, `CheckMediaType` (with S_OK), `SetMediaType` and `CompleteConnect` agree; which error it answers otherwise, in the order of the checks |
| PinConnection.AttemptsExactly | pjproject/third_party copy/BaseClasses/amfilter.cpp:1758-1842 | an attempt connects both pins exactly when directions differ, the connecting pin checks and sets the type, the receiver accepts and the connecting pin completes; the receiver alone stays connected exactly when all but the last hold and it is not stopped or refuses to break; which error is returned otherwise |
| PinConnection.RunningReceiverIsNotSafe | pjproject/third_party copy/BaseClasses/amfilter.cpp:1799-1811 | a receiver of a running filter that may reconnect, and that accepts some type, is left connected by some failing negotiation |
| PinConnection.OwnTypesFirst | pjproject/third_party copy/BaseClasses/amfilter.cpp:1947-1973 | of two types that both pins agree to, the type agreed on is the connecting pin's or the receiver's as `m_bTryMyTypesFirst` says |
| PinConnection.SearchFindsTheFirst | pjproject/third_party copy/BaseClasses/amfilter.cpp:1869-1916 | the type agreed is the first in enumeration order that matches the template and is not refused, provided it completes with S_OK |
| PinConnection.SearchInTwoLists | pjproject/third_party copy/BaseClasses/amfilter.cpp:1947-1973 | searching the two enumerations in turn is searching their concatenation |
| PinConnection.SafeReceiversExactly | pjproject/third_party copy/BaseClasses/amfilter.cpp:1799-1811 | no negotiation is botched, with any connecting pin that completes with S_FALSE nothing it accepts and any template, if and only if the receiver can be disconnected again or never accepts |
| PinConnection.SafeConnectorsExactly | pjproject/third_party copy/BaseClasses/amfilter.cpp:1890-1915 | no negotiation is botched, with any receiver that can be disconnected and any template, if and only if the connecting pin has no type that it accepts and sets and then completes with S_FALSE |
| PinConnection.LeftByFalseSuccess | pjproject/third_party copy/BaseClasses/amfilter.cpp:1890-1915 | for each such type a receiver is named with which the pins are connected and the type is passed by |
| PinConnection.LeftConnected | pjproject/third_party copy/BaseClasses/amfilter.cpp:1799-1811 | a receiver that accepts but cannot be disconnected is left connected by a connecting pin that is named |
| PinConnection.BotchedByFalseSuccess | pjproject/third_party copy/BaseClasses/amfilter.cpp:1890-1915 | a type completed with a success code other than S_OK is passed by although the pins are connected; if the pin accepts the next type, one reference to the receiver is never released |
| PinConnection.FirstErrorSurvivesExactly | pjproject/third_party copy/BaseClasses/amfilter.cpp:1949-1975 | the second list leaves the first list's error as it is, whatever specific error that is, if and only if it has no enumerator or cannot be reset with an unspecific code; once it can be enumerated, it alone decides the error |
| PinConnection.ListReportsTheFirst | pjproject/third_party copy/BaseClasses/amfilter.cpp:1869-1916 | a list that leads to nothing reports the first specific error that a matching type met |
| PinConnection.UnspecificErrorsAreReplaced | pjproject/third_party copy/BaseClasses/amfilter.cpp:1890-1975 | E_FAIL, E_INVALIDARG and VFW_E_TYPE_NOT_ACCEPTED for the only type become VFW_E_NO_ACCEPTABLE_TYPES; every other error comes through |
| PinConnection.SpecificErrorIsForgotten | pjproject/third_party copy/BaseClasses/amfilter.cpp:1949-1975 | a receiver's own error for a type of the first list is lost to VFW_E_NO_ACCEPTABLE_TYPES behind an empty second list |
| PinConnection.RemainsInTwoLists | pjproject/third_party copy/BaseClasses/amfilter.cpp:1774-1842 | what a botched negotiation leaves on the connecting pin after two lists is what the second leaves unless the first had dropped the connection already |
| PinConnection.MatchingIsAPreorder | pjproject/third_party copy/BaseClasses/mtype.cpp:319-347 | matching is reflexive and transitive |
| PinConnection.MatchesByField | pjproject/third_party copy/BaseClasses/mtype.cpp:319-347 | a type matches exactly when each of the template's major type, subtype and format type is null or equal, and the format block is equal unless the format type is null |
| PinConnection.FullTemplateMatchesItself | pjproject/third_party copy/BaseClasses/mtype.cpp:305-347 | a template without null fields is matched by itself only |
| AugmentedCodebook.SearchAugmentedCB | pjproject/third_party copy/ilbc/createCB.c:71-182 | for every lag the stored energy is the squared norm of the vector built for it; no lag with a gain between -1.3 and 1.3 has a measure above the one returned; either that is the incoming one and nothing changes, or index, gain and measure are those of the first lag with such a gain that has it |
| AugmentedCodebook.EnergyAndCross | pjproject/third_party copy/ilbc/createCB.c:110-149 | recursive energy and inner product are the squared norm and target product of the whole vector |
| AugmentedCodebook.EnergyFromFront | pjproject/third_party copy/ilbc/createCB.c:112-115 | one more sample at the front is what the recursion adds |
| AugmentedCodebook.EnergyOfCopy | pjproject/third_party copy/ilbc/createCB.c:93-115 | the first lag - 4 samples of a vector are a stretch of the history with that energy |
| AugmentedCodebook.BestStep | pjproject/third_party copy/ilbc/createCB.c:168-180 | comparing with strict > keeps the first maximum over the admissible lags |
| AugmentedCodebook.Compare | pjproject/third_party copy/ilbc/createCB.c:157-180 | extends the first maximum over the admissible lags by one lag: the comparison keeps `IsBest`, in the first stage and in the later ones with their gain limit |
| AugmentedCodebook.CreateAugmentedVec | pjproject/third_party copy/ilbc/createCB.c:190-230 | the vector built is that of the search: the history repeated at the lag with a linear cross-fade of five samples, the first of weight 0, before the repetition |
| AugmentedCodebook.MeasureIsTheErrorRemoved | pjproject/third_party copy/ilbc/createCB.c:157-169 | for any vector of positive energy and any gain: the squared error with gain cross/energy is the target's energy less cross * cross/energy, and no gain leaves a smaller error |
| AugmentedCodebook.MeasureFromTheError | pjproject/third_party copy/ilbc/createCB.c:157-169 | the measure of a lag times (energy + EPS) is the energy times the squared error that the vector built for it removes with its best gain; in stage 0 an inner product of at most 0 gives -10^7 |
| AugmentedCodebook.GainFromTheVector | pjproject/third_party copy/ilbc/createCB.c:157-175 | gain times (energy + EPS) is the inner product of target and vector, for a vector of zeros too, and a lag is admissible exactly when its gain lies strictly between -1.3 and 1.3 |
| AugmentedCodebook.VectorFromHistory | pjproject/third_party copy/ilbc/createCB.c:190-230 | sample by sample in numbers: the history from the lag on, four samples mixed 0.8/0.2 to 0.2/0.8 with those one lag earlier, and the history from the lag on again |
| AnalysisFilter.AnaFilter | pjproject/third_party copy/ilbc/anaFilter.c:20-71 | the two loops give the convolution of the block as the continuation of the state, and the state becomes the block's end |
| AnalysisFilter.ElevenTaps | pjproject/third_party copy/ilbc/anaFilter.c:20-71 | an output sample is the sum of all eleven coefficients times the samples from the newest back |
| AnalysisFilter.ImpulseResponse | pjproject/third_party copy/ilbc/anaFilter.c:20-71 | a unit impulse after silence comes out as the eleven coefficients one by one, then silence |
| AnalysisFilter.BlocksAreOneSignal | pjproject/third_party copy/ilbc/anaFilter.c:20-71 | filtering block by block equals filtering the whole signal at once, each sample by its block's coefficients, and ends in the same state |
| AnalysisFilter.SameCoefficients | pjproject/third_party copy/ilbc/anaFilter.c:20-71 | with fixed coefficients the calls are one call |
| AnalysisFilter.TapsAreLocal | pjproject/third_party copy/ilbc/anaFilter.c:57-65 | a sum depends on the samples its taps reach only |

## Left out

- AllocatorProtocol.HeaderInvariants: the counting half is stated while threads and `AM_GBF_NOWAIT` timeouts together stay within the semaphore's 31-bit maximum; beyond it a release is refused and the code gives no promise.
- AllocatorProtocol.ParkedThreadCanWake: stated within the same bound.
- FrameStatistics.ISqrt: does not cover x = 2^30, where the first step overflows `int`, and negative x; `GetStdDev` passes neither.
- FrameStatistics.Renderer.RecordFrameLateness: does not cover the frame count's own overflow after 2^31 - 1 frames.
- AugmentedCodebook.SearchAugmentedCB: floats are reals, so rounding is not modelled; lags are 20 to 40, of which the callers use 20 to 39, and below 20 the code would read past the end of the history.
- AnalysisFilter.AnaFilter: blocks shorter than the filter's order are not covered, because the code reads and writes ten samples in any case.
- PinConnection.Pin.Connect: the answers of the overridable functions depend on the media type alone; calls back into the pins from within them are not modelled. The media type a refused attempt leaves in `m_mt` is not restored, and nothing is said of it.
- CmdQueues.CmdQueue.GetDueCommand: one pass of the loop; the wait between passes and its timeout are left out with the timer event.
- CmdQueues.CmdQueue.Insert: a command that is queued already is not inserted again; neither of the two callers does so.
- BaseLists.BaseList.AddTail: another list is added, as with the other whole-list operations; adding a list to itself is not covered (`AddTail` ends then for an empty and a one-element list only).
- EndOfStreamNotification.RunKeepsInvariant: connections that strand are left out, because a completion can be lost after them (`ConnectIsSafeExactly`); the count of events and `SendsPastTheEnd` cover runs with them.
- EndOfStreamNotification.BaseRenderer.OnStop: overrides of `Inactive` that keep the sample are not modelled.
- EndOfStreamNotification.BaseRenderer.OnBeginFlush: `WaitForReceiveToComplete` is left out; it only delays, so that the code's runs are among the model's. The timer beyond its flag, the identity of the clock a link was made with, EC_ERRORABORT, EC_REPAINT and EC_DISPLAY_CHANGED are not modelled.
- Operating system objects: a semaphore is a counter, an event a boolean, a critical section an atomic step, the clock a parameter. Safety and enabledness are proved, not fairness.
- `CQueue` indices and `REFERENCE_TIME` values are unbounded; the wrap of the indices after 2^31 objects is not modelled.
- `CCmdQueue::SetTimeAdvise`: the event is reset even when the advise stays, so nothing is claimed about when it is signalled.
- Freeing nodes, samples and commands (`RemoveAll`, destructors, a reference count of 0) is the end of an object's use, not a step.
- OutputPin.DynamicOutputPin.Block: the wait of a synchronous block for its request, which `RequestsAreSettledOnce` is about, is left out.
- Dynamic reconnection and format changes of output pins.
- Scheduling of samples against the clock, quality management and `ShouldDrawSampleNow`: tuned constants with only simple bounds.
- The rest of the iLBC codec (`StateSearchW`, `LPCencode` and others): they depend on tables and helpers that are not part of this model.
- COM plumbing (QueryInterface, IDispatch, registration, logging, window messages) and media-type memory copying: no algorithmic content.
