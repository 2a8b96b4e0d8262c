# Rust Data Broker: verified model

This project models the three parts of the broker that carry state, and proves what they keep true.

* **The arena allocator** (`src/memory/allocator.rs`), twice. `Arena` is the sequential allocator over
  an array of 8-byte words: free-list nodes and slot headers live in those words and are relinked in
  place through pointers to pointers. `ArenaThreads` is a transition system in which any number of
  threads allocate, free, set the tail reservation and defragment; one step is one atomic access or
  one critical section of the free-list mutex; `ArenaMemory` puts it over the words of the arena, with
  clients writing into their blocks meanwhile. Both use the list functions of `FreeList` and the
  tiling invariant of `Tiling`. `Cover(list, b)` counts the nodes that contain byte `b`, so exact
  tiling is the statement that free and carved covers add up to 1 below the bump pointer and to 0
  elsewhere.
* **The message queue** (`src/net/queue.rs`). `QueueModel` gives each operation as a function on the
  order vector, the message map, the lock lists and the cursor; `BrokerQueue` is the class that
  updates them in place. The other `Queue...` modules prove properties of runs.
* **The request decoder and the queue registry** (`src/net/server.rs`). `Wire` is the frame format and
  the parse loop on byte sequences, `ConnectionLoop` the loop over a growing buffer, `Registry` a
  transition system over the two reader-writer locks.

| files | content |
|---|---|
| `Bits`, `Slots` | the mask form of `align_up`, slot size and header geometry |
| `FreeList`, `Tiling`, `Memory` | first fit, defragmentation, tiling; the list threaded through memory |
| `ArenaRep`, `DefragRep`, `Arena`, `ArenaLaws` | the in-place allocator and laws across its operations |
| `ArenaThreads`, `ArenaRuns`, `ArenaBounds` | the concurrent allocator, what its runs guarantee, and exactly what breaks its bounds |
| `ArenaSolo` | whole calls of one thread that nobody disturbs, in any state of the others |
| `ArenaMemory` | the concurrent allocator over memory refines `ArenaThreads` |
| `Writes`, `ArenaSections` | critical sections store by store, with the stores of others in between |
| `QueueModel`, `BrokerQueue`, `Payloads` | the queue, in place, and the five largest payload sizes |
| `QueueSpec` | what each queue operation does, as a relation on states and answers in pieces of the sequences, and that the model does that |
| `QueueSafety`, `QueueAgreement`, `QueueCursor`, `QueueRequeue`, `QueueFifo`, `QueuePipeline` | invariants of queue runs |
| `QueuePanics`, `QueueLiveness`, `QueueTimers` | exactly what leads to a failed `unwrap`, a withheld message, or a timer that releases a later delivery |
| `QueueFrame`, `QueueKeeps` | helpers: what one operation leaves alone, and what all invariants say of it |
| `QueueTheorems`, `QueueWitnesses` | the guarantees from an empty queue, and runs in which a promise fails |
| `Wire`, `WireSpec`, `WireMemory`, `Connection` | decoder, what its headers mean, decoding while memory varies, read loop |
| `Registry`, `RegistryDeadlock` | registry, and where its two lock orders meet |

Assumptions, all from the source's own contracts: a 64-bit target; the arena base is a multiple of 8
and the arena ends below 2^64; layouts are what Rust hands to a global allocator (power-of-two
alignment, size at least 1, size rounded up to the alignment within `isize::MAX`); the capacity is
fixed; a program frees each pointer it holds at most once; drawn UUIDs are new. Atomic accesses are
sequentially consistent steps. Time stamps, the free memory seen by the decoder and the iteration order
of hash maps are parameters or arbitrary choices.

## Guards and failures found

Seven plausible promises do not hold of the code. Each has its exact condition and a run.

* The change log promises that allocations leave the tail reservation clear. In the concurrent allocator
  exactly three accesses break it: adding the excess of a node handed out whole, which no budget check
  covers; a reservation whose compare-exchange succeeds although the tail has grown since the check; and
  a tail stored although `used` has grown since the check. `ArenaBounds.Intrudes` names the guard of
  each, `TailLostExactlyWhen` and `TailKeptExactlyWhen` prove it exact for steps and runs. As long as the
  tail does not grow between a check and its compare-exchange, everything about to be reserved fits beside
  it (`ArenaBounds.ChecksHold`), but that alone does not save it: in `TailLostReachable` the third access
  makes `used` plus reservation twice the capacity. Without that one either, only the excesses are left
  (`ArenaBounds.TailRespected`). The excesses alone
  cost at most 8 bytes a thread: `ArenaBounds.ExcessAlone`, `ArenaBounds.TailLossBounded`. One
  undisturbed allocation can break it by the excess only: `ArenaLaws.HeadroomExactlyWhen`,
  `ArenaLaws.HeadroomRun`.
* `get_free_mem_size` subtracts `used` from the capacity. Exactly the unchecked addition of an excess
  makes that underflow: `ArenaBounds.UnderflowsExactlyWhen`, `ArenaBounds.WithinExactlyWhen`. It takes a
  second thread with a reservation or a free under way (`ArenaBounds.AloneNeverOverfills`), and with two
  threads it happens: `ArenaRuns.OvershootReachable`.
* An enqueue behind a tombstone tail, after a wrap, or once a reused id stands behind a larger one in
  the order, can take the id of a live message and overwrite it. The guard is that the new id is not
  live (`FreshId`), and it is exact: `QueueAgreement.EnqueueAgreesIff`,
  `QueueWitnesses.TombstoneTailLosesMessage`.
* An acknowledgement can fail its `unwrap`: exactly when no live message is named and the client's
  oldest lock is on a message that is gone (`QueuePanics.PanicsExactlyWhen`). Exactly the operations
  that take away a message another list keeps put such a dead id into a list:
  `QueuePanics.OrphansExactlyWhen`; as long as none happens no list has one and no `unwrap` fails:
  `QueuePanics.CleanExactlyWhen`. (A dead id need not come to an acknowledgement: a negative
  acknowledgement can take it out again, or the order run empty first.) Both guards matter. Deleting by
  id what another client holds does it (`OwnOrUnlocked`: `QueuePanics.DeleteOrphansIff`,
  `QueueWitnesses.ForeignDeleteThenAckPanics`), and so does reusing a live id, after which two clients
  hold the same message (`FreshId`: `QueueWitnesses.ReusedIdThenAckPanics`). A delete with an unknown id
  acknowledges the caller's first lock: `QueueWitnesses.UnknownIdAcknowledges`.
* A lock can be refused although a message waits: in any reachable state exactly when there is no
  cursor, or when it rests on a locked or removed message (`QueueLiveness.WithheldExactlyWhen`). Without
  a cursor the answer is "empty", which is then not true: `QueueWitnesses.EmptyAnswerUntrue`, a run with
  fresh ids in which nobody deletes what others hold. While new ids are ahead of all others (`AheadId`)
  that cannot happen (`QueueCursor.EmptyIsTruthful`). Then, and with nobody deleting what others hold,
  exactly a lock whose message has a tombstone or an unavailable message right behind it, and a deletion
  of the message under the cursor in the like case, strand the cursor:
  `QueueLiveness.StrandsExactlyWhen`, `QueueWitnesses.CursorSticks`; and without such an operation every
  lock is served while a message waits: `QueueLiveness.EveryLockServed`.
* A delivery's timer should release its own delivery only. In any run it acts on another one exactly if
  its client's list still, or again, has the id and the id has been delivered again since, to whomever:
  `QueueTimers.MisfiresExactlyWhen`, `QueueTheorems.TimersMisfire`. With a reused id that can be another
  client's delivery: `QueueWitnesses.ForeignTimerReleases`. Under the guards it is the same client's,
  after its own hold ended (`QueueTimers.MisfiresAfterEnd`): after a negative acknowledgement the same
  message, behind a tombstone a different one: `QueueWitnesses.StaleTimerReleases`.
* A handler that asks for the registry's maps should get them in the end. A lookup takes the id map before
  the name map, CreateQ and DeleteQ the name map first, so that each can hold what the other waits for:
  `RegistryDeadlock.DeadlockReachable`. Then neither gets any further and no queue is ever created or
  deleted again (`CrossedForever`), and this is the only way in which handlers come to a standstill:
  `JammedExactlyWhen`.

## Model

| member | source | states |
|---|---|---|
| Bits.AndBits | src/memory/allocator.rs:54-56 | the `&` the model uses is bitwise conjunction, for all operands |
| Bits.NotBits | src/memory/allocator.rs:54-56 | the `!` the model uses is bitwise negation of a 64-bit word |
| Bits.AlignUpIsLeastMultiple | src/memory/allocator.rs:54-56 | for a power of two the mask form is the least multiple not below the value |
| Slots.RequiredSlotSize | src/memory/allocator.rs:57-63 | no addition overflows; the result is a word multiple with room for header, padding and block, and less than a word more than that |
| Slots.SlotGeometry | src/memory/allocator.rs:64-75 | header and block lie inside any slot of the required size, the block directly behind a word-aligned header |
| Slots.UserAligned | src/memory/allocator.rs:64-75 | the block starts at the first suitably aligned address behind the slot's first 16 bytes |
| FreeList.TakeConserves | src/memory/allocator.rs:174-196 | carving, split or whole, moves exactly the slot's bytes off the list, byte by byte |
| FreeList.TakeRegular | src/memory/allocator.rs:177-196 | sizes stay word multiples of at least 16; the excess of a slot handed out whole is 0 or 8 |
| FreeList.DefragCover | src/memory/allocator.rs:334-364 | defragmenting any list covers every byte exactly as often as before |
| FreeList.DefragCanonical | src/memory/allocator.rs:334-364 | the result is address-sorted with a gap between any two nodes |
| FreeList.CanonicalUnique | src/memory/allocator.rs:334-364 | two such lists over the same bytes are equal |
| FreeList.DefragConfluent | src/memory/allocator.rs:334-364 | any two free lists over the same bytes defragment to the same list |
| FreeList.DefragIdempotent | src/memory/allocator.rs:334-364 | defragmenting twice is defragmenting once |
| FreeList.DefragServes | src/memory/allocator.rs:167-201 | after defragmentation first fit succeeds for n bytes if and only if some n contiguous bytes are free |
| FreeList.DefragServesMore | src/memory/allocator.rs:334-364 | every request the list could serve before can be served after |
| Tiling.TakeKeeps | src/memory/allocator.rs:167-201 | first fit keeps free nodes and carved slots tiling the bumped range exactly |
| Tiling.BumpKeeps | src/memory/allocator.rs:202-223 | carving at the bump pointer keeps the exact tiling of the grown range |
| Tiling.FreeKeeps | src/memory/allocator.rs:129-135 | pushing a slot onto the free list keeps the exact tiling |
| Tiling.DefragKeeps | src/memory/allocator.rs:334-364 | defragmentation keeps the exact tiling |
| Tiling.TotalsAddUp | src/memory/allocator.rs:21-25 | free and carved bytes add up to the bump offset |
| Memory.Unlink | src/memory/allocator.rs:175 | the single write `*prev = (*node).next` removes that node and no other from the list in memory |
| Memory.Link | src/memory/allocator.rs:346-347 | the two writes through `prev` insert a node at that place |
| Memory.Merge | src/memory/allocator.rs:355-357 | the two merge writes replace two nodes by one of their joint size |
| ArenaRep.CarveSplit | src/memory/allocator.rs:172-187 | the writes of the splitting branch yield the list with the remainder in the node's place and touch no live slot |
| ArenaRep.CarveWhole | src/memory/allocator.rs:189-195 | the write of the whole-node branch yields the list without the node and touches no live slot |
| ArenaRep.Granted | src/memory/allocator.rs:64-75 | writing the header of a carved slot disturbs neither the free list nor another slot |
| ArenaRep.LivePointer | src/memory/allocator.rs:115-127 | the header words in front of a live pointer give back its slot, inside the arena |
| ArenaRep.Released | src/memory/allocator.rs:129-135 | writing a free node into a live slot yields the longer list and keeps every other slot's words |
| ArenaRep.UserRangesApart | src/memory/allocator.rs:64-75 | live blocks overlap no other block, no other header and no free node |
| ArenaRep.UserWriteKeeps | src/memory/allocator.rs:33-41 | any write a client makes to its own block leaves free list and headers intact |
| Arena.ArenaAllocator.PlaceHeader | src/memory/allocator.rs:64-75 | returns the aligned block address and writes offset and slot size in front of it, nothing else |
| Arena.ArenaAllocator.ReserveUsed | src/memory/allocator.rs:148-166 | the retry loop, with any number of spurious failures, succeeds if and only if `used` + request + reservation are within the capacity, and then adds the request to `used` |
| Arena.ArenaAllocator.AllocFromFreeList | src/memory/allocator.rs:167-201 | in place: the first node large enough is split or handed out whole, all others keep their order, live slots keep their words |
| Arena.ArenaAllocator.AllocFromBump | src/memory/allocator.rs:202-223 | the retry loop, with any number of spurious failures, carves at the offset if and only if there is room |
| Arena.ArenaAllocator.Alloc | src/memory/allocator.rs:77-101 | a pointer comes back if and only if `used` + slot size + reservation are within the capacity and either some free node is that large or there is room behind the bump pointer; a refusal changes nothing; the whole new state in every case, written out by the three lemmas below; the invariant of counters, tiling and memory is kept |
| ArenaLaws.AllocServedIff | src/memory/allocator.rs:148-223 | the same condition, of the specification the method is proved against |
| ArenaLaws.AllocTakes | src/memory/allocator.rs:167-201 | the first node large enough serves it: 16 bytes or more too large it gives its front and the remainder takes its place, else it goes whole and counts whole; nothing else changes |
| ArenaLaws.AllocBumps | src/memory/allocator.rs:202-223 | only without such a node the slot lies at the bump pointer, which moves behind it |
| Arena.ArenaAllocator.Dealloc | src/memory/allocator.rs:103-145 | a pointer outside the arena is passed on and changes nothing; for a live pointer both guards pass, exactly its slot goes to the front of the free list and `used` shrinks by its size |
| Arena.ArenaAllocator.Defragment | src/memory/allocator.rs:334-364 | the in-place sort and merge terminate, turn the list into its defragmentation and touch no live slot |
| Arena.ArenaAllocator.SetLockedSize | src/memory/allocator.rs:311-319 | sets the reservation if and only if it fits beside what is used |
| Arena.ArenaAllocator.GetFreeMemSize | src/memory/allocator.rs:268-276 | sequentially: capacity less the live slots, no underflow, at least the reservation less 8 |
| Arena.ArenaAllocator.UserWrite | src/memory/allocator.rs:33-41 | a client write into its own block keeps the allocator's invariant |
| ArenaLaws.DeallocInvertsAlloc | src/memory/allocator.rs:77-145 | freeing what was just allocated restores the live blocks and `used` and frees precisely the slot's bytes |
| ArenaLaws.AllocFreeDefrag | src/memory/allocator.rs:77-145 | with a defragmentation after it, allocating from the list and freeing leaves no trace |
| ArenaLaws.DefragServed | src/memory/allocator.rs:77-101 | defragmenting never turns a success into a refusal; without bump room the budget and a large enough free region decide |
| ArenaLaws.HeadroomExactlyWhen | src/memory/allocator.rs:189-195 | when one undisturbed allocation eats into the tail reservation, and by how much at most |
| ArenaLaws.HeadroomRun | src/memory/allocator.rs:189-195 | a run of the allocator that ends 8 bytes over |
| ArenaThreads.SearchKeeps | src/memory/allocator.rs:167-201 | the free-list critical section keeps tiling, ownership and books in any state of the other threads |
| ArenaThreads.PushKeepsInv | src/memory/allocator.rs:129-135 | so does pushing a freed slot |
| ArenaThreads.SubtractionsNeverWrap | src/memory/allocator.rs:98-137 | no `fetch_sub` on `used` ever wraps, whatever other threads have pending |
| ArenaThreads.AdvanceKeeps | src/memory/allocator.rs:148-223 | so does every atomic access, including failed and spurious compare-exchanges |
| ArenaThreads.EveryRunKeeps | src/memory/allocator.rs:77-223 | in every interleaving: exact tiling, one owner per carved slot, `used` = carved bytes + reservations not yet carved + frees not yet subtracted - excess not yet added, and a reservation within the capacity |
| ArenaRuns.ReachableInv | src/memory/allocator.rs:77-223 | the same for every state reachable from the initial one |
| ArenaRuns.QuiescentBooks | src/memory/allocator.rs:77-145 | with no thread inside the allocator `used` is the bytes the program holds and no slot is lost |
| ArenaRuns.EverythingReclaimed | src/memory/allocator.rs:334-364 | with no thread inside and nothing held, `used` is 0 and one defragmentation leaves a single node over the whole bumped range |
| ArenaRuns.OwnersApart | src/memory/allocator.rs:77-223 | slots with owners share no byte and have one owner |
| ArenaRuns.OvershootReachable | src/memory/allocator.rs:268-276 | a two-thread run in which it does |
| ArenaBounds.UnderflowsExactlyWhen | src/memory/allocator.rs:189-193 | a step takes `used` over the capacity if and only if it adds an excess that does not fit |
| ArenaBounds.WithinExactlyWhen | src/memory/allocator.rs:268-276 | in every run `capacity - used` is safe if and only if no such access happens |
| ArenaBounds.AloneNeverOverfills | src/memory/allocator.rs:189-193 | such an access needs another thread with a reservation or a free under way |
| ArenaBounds.OneThreadStaysWithin | src/memory/allocator.rs:268-276 | every run of a single thread keeps `used` within the capacity |
| ArenaBounds.TailLostExactlyWhen | src/memory/allocator.rs:148-195 | a step takes `used` into the reserved tail if and only if it is one of three accesses, each with its guard |
| ArenaBounds.TailKeptExactlyWhen | src/memory/allocator.rs:311-319 | in every run the tail stays clear if and only if none of them happens |
| ArenaBounds.ExcessAlone | src/memory/allocator.rs:189-195 | in every run without the two stale accesses, `used` plus reservation stay within the capacity plus 8 bytes for each thread not about to add an excess |
| ArenaBounds.TailLossBounded | src/memory/allocator.rs:311-319 | from the start: at most 8 bytes a thread over the capacity without stale accesses, and never more than the capacity again |
| ArenaBounds.TailLostReachable | src/memory/allocator.rs:311-319 | a two-thread run in which they are twice the capacity, although no tail grew between a check and its compare-exchange |
| ArenaBounds.ChecksHold | src/memory/allocator.rs:148-166 | in every run in which no tail grows between a thread's budget check and its compare-exchange, what is about to be reserved fits beside the tail; with no tail stored after `used` grew either, neither stale access occurs |
| ArenaBounds.TailRespected | src/memory/allocator.rs:148-166 | so from the start, where the tail then loses excesses only |
| ArenaBounds.TailChangesExactlyWhen | src/memory/allocator.rs:311-319 | the reservation changes exactly at the store of a size that fitted beside the `used` loaded before |
| ArenaSolo.ServedAlone | src/memory/allocator.rs:77-101 | in any state of the other threads, a call nobody disturbs gets a slot of at least its size if and only if `used` + size + reservation are within the capacity and a free node is large enough or there is room behind the bump pointer; otherwise it leaves no trace |
| ArenaSolo.SplitsAlone | src/memory/allocator.rs:172-187 | the world such a call leaves when the first node that fits has 16 bytes or more to spare |
| ArenaSolo.WholeAlone | src/memory/allocator.rs:189-196 | and when it has less: the node goes whole and counts whole |
| ArenaSolo.BumpsAlone | src/memory/allocator.rs:202-223 | and when no node fits but the bump pointer has room |
| ArenaSolo.RefundedAlone | src/memory/allocator.rs:92-99 | and when neither has: the reservation is given back |
| ArenaSolo.FreesAlone | src/memory/allocator.rs:129-137 | the world a free nobody disturbs leaves |
| ArenaSolo.LocksAlone | src/memory/allocator.rs:311-319 | a reservation set by such a call is set if and only if it fits beside `used` |
| ArenaSolo.GivesUpExactlyWhen | src/memory/allocator.rs:148-223 | under any interference: a thread gives up exactly where the counter it last saw leaves no room, and retries with the value the counter has now |
| ArenaMemory.SearchInMemory | src/memory/allocator.rs:167-201 | with any other threads at work, the writes of a search stay in the arena, yield the list of its branch and touch no carved slot |
| ArenaMemory.AccessKeeps | src/memory/allocator.rs:64-201 | every access a thread can make touches words of the arena only and keeps memory spelling the free list and all headers |
| ArenaMemory.WriteStep | src/memory/allocator.rs:33-41 | so does any client store into a block it holds, at any time |
| ArenaMemory.PointerRecovers | src/memory/allocator.rs:103-127 | the header words in front of a held pointer name its slot and both guards pass, whatever other threads do |
| ArenaMemory.DefragPossible | src/memory/allocator.rs:334-364 | in every such state a defragmentation is possible within the words of the free nodes |
| ArenaMemory.Starts | src/memory/allocator.rs:282-309 | every arena within the assumptions has an initial state |
| ArenaMemory.EveryMemRunRefines | src/memory/allocator.rs:77-223 | every run over memory is a run of `ArenaThreads`: freeing what the header names is freeing the slot |
| ArenaMemory.EveryPointerFrees | src/memory/allocator.rs:103-137 | from the start, in every interleaving: each held pointer frees its own slot, and its block overlaps no other block, header or free node |
| ArenaSections.SearchIsAtomic | src/memory/allocator.rs:167-201 | a search whose stores are mixed in any way with stores others make outside the mutex does what it would do as one step, before or after them |
| ArenaSections.DefragIsAtomic | src/memory/allocator.rs:334-364 | so does a defragmentation, whatever stores to free nodes it makes |
| ArenaSections.PushIsAtomic | src/memory/allocator.rs:129-135 | so does a push |
| ArenaSections.ListUndisturbed | src/memory/allocator.rs:167-201 | meanwhile the section reads the free list as it was |
| ArenaSections.ClientOutside | src/memory/allocator.rs:33-41 | client stores are such stores |
| ArenaSections.HeaderOutside | src/memory/allocator.rs:64-75 | so are header stores |
| Writes.MixedIsAtomic | src/memory/allocator.rs:167-201 | stores of two parties to different words have one effect, however mixed |
| BrokerQueue.Queue.Enqueue | src/net/queue.rs:183-206 | in place: the message stands at the end under the id after the last one, or 1, and a queue without a cursor gets it there; the structures keep agreeing if and only if the id is fresh, and the cursor invariant holds if and only if it is ahead |
| BrokerQueue.Queue.RemoveZeroes | src/net/queue.rs:470-482 | in place: ten or more entries that start with nine tombstones lose their leading tombstones, any other order stays, and no live id goes |
| BrokerQueue.Queue.LockToRead | src/net/queue.rs:207-255 | in place: the message under the cursor is locked, appended to the caller's list and delivered, the cursor moves on, or one of three refusals changes nothing; all invariants are kept, and under the cursor invariant the message is the oldest unlocked one and "empty" is true |
| BrokerQueue.Queue.DeleteById | src/net/queue.rs:261-296 | in place: the message leaves the map, its place in the order becomes a tombstone, the caller's list loses it in order, the cursor moves off it; agreement is kept if and only if the message is unlocked or the caller's |
| BrokerQueue.Queue.Dequeue | src/net/queue.rs:256-320 | in place: a live id is deleted, otherwise the caller's oldest lock is acknowledged, with all refusals; one message goes and no other client's list is touched; under its guard agreement is kept and no `unwrap` fails |
| BrokerQueue.Queue.Unlock | src/net/queue.rs:336-379 | in place: the caller's list is cut into what stood before the id and behind it, and keeps that order; without an id it loses its head; the message loses its lock and nothing else, the cursor goes back to it if it was beyond; all refusals; all invariants are kept |
| BrokerQueue.Queue.AutoFail | src/net/server.rs:334-354 | the same for what the client holds under that id, and otherwise nothing; all invariants are kept; which delivery it is, `QueueTimers` says |
| BrokerQueue.Queue.Requeue | src/net/queue.rs:380-400 | in place: an enqueue of the same content, then a deletion; under the guards it moves the message to the end and keeps all invariants |
| BrokerQueue.Queue.UpdateMessage | src/net/queue.rs:413-429 | in place: succeeds if and only if the order is not empty and the id is live; then that message has the new payload and its old publisher, time stamp and lock, and order, locks, cursor and all other messages are as before; a failure changes nothing |
| QueueSpec.LockDoes | src/net/queue.rs:207-255 | the relation `Delivered` holds of the model's lock, and so below for the other operations |
| QueueSpec.DequeueDoes | src/net/queue.rs:256-320 | `Dequeued`: exactly one of a refusal, a deletion or an acknowledgement, each written out |
| QueueSpec.UnlockDoes | src/net/queue.rs:336-379 | `GaveBack`: list pieces, lock, cursor and refusals of a negative acknowledgement |
| QueueSpec.ExpireDoes | src/net/server.rs:334-354 | `Expired`: the same of a timer |
| QueueSpec.UpdateDoes | src/net/queue.rs:413-429 | `Updated`: the new payload, and nothing else |
| QueueSpec.AckAfterGivenBack | src/net/queue.rs:297-379 | after a timer or a negative acknowledgement, an acknowledgement takes away the oldest of the locks that remain |
| QueueSpec.UpdatedIsDelivered | src/net/queue.rs:207-429 | the lock that delivers an updated message delivers the new payload |
| BrokerQueue.Queue.FindBiggestPayloads | src/net/queue.rs:436-453 | for any iteration order the array stays the five largest of all sizes scanned so far |
| BrokerQueue.Queue.GetNextBiggestPayload | src/net/queue.rs:430-435 | answers the maximum of all earlier scans; answers never decrease |
| Payloads.TopFiveUnique | src/net/queue.rs:436-453 | the array is determined by the sizes, so no order of iteration shows |
| Payloads.LengthsAnyOrder | src/net/queue.rs:437 | the multiset of sizes does not depend on the order of visiting |
| Payloads.ShiftedKeepsTop | src/net/queue.rs:440-448 | shifting down and inserting keeps the five largest |
| QueueSafety.ApplySafe | src/net/queue.rs:183-400 | every operation by anybody keeps: live ids are in the order, locked ones in their holder's list, 0 is no id, lock or cursor |
| QueueTheorems.AlwaysSafe | src/net/queue.rs:183-400 | so every reachable queue has it, and an empty order means no messages |
| QueueAgreement.ApplyAgrees | src/net/queue.rs:183-400 | under the two guards: ids in the order once each and exactly the live ones, lists hold exactly the locked ones once each, no `unwrap` fails |
| QueueAgreement.EnqueueKeepsAllIffFresh | src/net/queue.rs:183-206 | an enqueue adds a message without losing one if and only if its id is not live |
| QueueAgreement.EnqueueAgreesIff | src/net/queue.rs:183-206 | an enqueue keeps the agreement of the structures if and only if its id is not live |
| QueueAgreement.DeleteAgreesIff | src/net/queue.rs:281-294 | deleting by id keeps the agreement if and only if the message is unlocked or the caller's |
| QueueAgreement.RunCounts | src/net/queue.rs:183-320 | live messages are the enqueued less the acknowledged and deleted |
| QueuePanics.PanicsExactlyWhen | src/net/queue.rs:297-319 | the exact guard of the failing `unwrap` |
| QueuePanics.OrphansExactlyWhen | src/net/queue.rs:256-320 | an operation leaves a dead id in a client's list if and only if it takes that message away and the list does not lose it |
| QueuePanics.CleanExactlyWhen | src/net/queue.rs:183-400 | in every run lists are free of dead ids if and only if no operation does that, and then no `unwrap` fails |
| QueuePanics.DeleteOrphansIff | src/net/queue.rs:281-294 | in an agreeing state a deletion does it if and only if the message is held by another client |
| QueuePanics.GuardedOrphansNone | src/net/queue.rs:183-400 | the two guards together rule it out |
| QueueTheorems.UnwrapsHold | src/net/queue.rs:297-319 | the same from an empty queue |
| QueueTheorems.GuardedRunsAgree | src/net/queue.rs:183-400 | all of that for every guarded run from an empty queue |
| QueueCursor.ApplyCursor | src/net/queue.rs:183-400 | while new ids are ahead: no unlocked message is behind the cursor, and without a cursor none is unlocked |
| QueueCursor.DeliversOldest | src/net/queue.rs:207-255 | a successful lock delivers an unlocked message that all other unlocked ones follow in the order |
| QueueCursor.EmptyIsTruthful | src/net/queue.rs:208-210 | the answer "empty" means no message is unlocked |
| QueueCursor.EnqueueCursorIff | src/net/queue.rs:183-206 | an enqueue keeps the cursor invariant if and only if its id is ahead |
| QueueCursor.AheadIffTail | src/net/queue.rs:184-198 | when a new id is ahead behind a nonzero tail |
| QueueTheorems.OldestFirst | src/net/queue.rs:183-400 | oldest-first delivery in every run from an empty queue whose new ids are ahead |
| QueueLiveness.StrandsExactlyWhen | src/net/queue.rs:236-279 | the cursor comes to rest on a message nobody can lock if and only if a lock or deletion finds none it can go to right behind |
| QueueLiveness.WithheldExactlyWhen | src/net/queue.rs:208-216 | in any reachable state, while a message waits: a lock is refused if and only if there is no cursor or it is on a message nobody can lock |
| QueueLiveness.ServedIff | src/net/queue.rs:207-216 | otherwise a lock succeeds if and only if some message waits |
| QueueLiveness.EveryLockServed | src/net/queue.rs:183-400 | so in every guarded run from an empty queue without such an operation |
| QueueTimers.EndsExactlyWhen | src/net/queue.rs:256-400 | in any state, a client's hold ends if and only if its only entry is taken out by its own acknowledgement, deletion, requeue or negative acknowledgement of the message, or a timer for it |
| QueueTimers.MisfiresExactlyWhen | src/net/server.rs:342-353 | in any run, a timer acts on another delivery than its own if and only if its client's list has the id and the id was delivered again, to whomever |
| QueueTimers.MisfiresAfterEnd | src/net/server.rs:342-353 | under the guards: if and only if its own hold ended and the client holds the id again |
| QueueTheorems.TimersMisfire | src/net/server.rs:334-354 | both for every delivery of any run from an empty queue |
| QueueRequeue.RequeueIsMove | src/net/queue.rs:380-400 | A ++ [m] ++ B becomes A ++ B ++ [m'] with m's payload and publisher and no lock; all else unchanged, invariants kept |
| QueueRequeue.LiveTombstoned | src/net/queue.rs:263-279 | tombstoning removes exactly that id from the live sequence |
| QueueFifo.EveryStreamIsFifo | src/net/queue.rs:183-320 | enqueue, lock and acknowledge by any clients: the order splits into delivered and pending, and delivered ++ pending is what was sent |
| QueueTheorems.StreamsAreFifo | src/net/queue.rs:183-320 | the same from an empty queue |
| QueuePipeline.EveryDisciplinedRun | src/net/queue.rs:183-379 | one pipelining consumer, or stop-and-wait with nack and timer: new ids are fresh and acked ++ in flight ++ pending is what was sent |
| QueuePipeline.LockPipe | src/net/queue.rs:207-255 | there a lock succeeds if and only if something is pending, and takes the first |
| QueuePipeline.AckPipe | src/net/queue.rs:297-319 | there an acknowledgement retires the oldest message in flight |
| QueuePipeline.NackUndoesLock | src/net/queue.rs:336-379 | nack or timer undoes the lock up to leading tombstones, and the same message is delivered next |
| QueueTheorems.DisciplinedRunsBalance | src/net/queue.rs:183-379 | the same from an empty queue, with fresh ids proved rather than assumed |
| QueueWitnesses.TombstoneTailLosesMessage | src/net/queue.rs:185-198 | four operations after which one of two live messages is lost |
| QueueWitnesses.ForeignDeleteThenAckPanics | src/net/queue.rs:281-319 | a run in which it does |
| QueueWitnesses.ReusedIdThenAckPanics | src/net/queue.rs:185-319 | another, in which nobody deletes what others hold but an id is reused |
| QueueWitnesses.UnknownIdAcknowledges | src/net/queue.rs:261-309 | a run in which deleting an unknown id removes the caller's own message |
| QueueWitnesses.CursorSticks | src/net/queue.rs:236-248 | a lock that leaves the cursor on the message it locked |
| QueueWitnesses.StickingStateReached | src/net/queue.rs:183-296 | the state it starts from is reachable |
| QueueWitnesses.StaleTimerReleases | src/net/server.rs:334-354 | a run in which the first delivery's timer releases the second message |
| QueueWitnesses.ForeignTimerReleases | src/net/server.rs:334-354 | a run in which a timer unlocks what another client is working on |
| QueueWitnesses.EmptyAnswerUntrue | src/net/queue.rs:207-255 | a run with fresh ids after which a message waits and every lock answers "empty" |
| Wire.ParseStable | src/net/server.rs:424-447 | more bytes never change a decision already possible |
| Wire.DrainAppend | src/net/server.rs:424-447 | draining before and after an arrival dispatches what one drain would |
| Wire.ChunksDoNotMatter | src/net/server.rs:417-447 | for every split into reads: same frames, same order, same rejection, same bytes left |
| Wire.NameRoundTrip | src/net/server.rs:445-446 | zero-padded UTF-8 names without trailing NUL are recovered |
| Wire.ParseEncoded | src/net/server.rs:182-189 | an encoded request parses back to itself, consuming exactly its bytes |
| Wire.RequestsRoundTrip | src/tests/server_tests.rs:37-48 | requests written back to back and cut anywhere decode to themselves with nothing left |
| WireSpec.UnknownExactlyWhen | src/net/server.rs:424-433 | a header is refused as unknown if and only if 25 bytes are there and the first is not in 1..12 |
| WireSpec.TooLargeExactlyWhen | src/net/server.rs:436-443 | and as too large if and only if the first is, and the size field is above 4 GiB or nine times it reaches four times the free memory |
| WireSpec.WaitsExactlyWhen | src/net/server.rs:423-444 | more bytes are waited for if and only if the header, or the frame of a header not refused, is incomplete |
| WireSpec.FrameIsBytes | src/net/server.rs:435-447 | a dispatched frame, encoded again, is the bytes it was read from; without a UTF-8 name field its name is empty and all else the same |
| WireSpec.NameExactlyWhen | src/net/server.rs:445-452 | a UTF-8 field is its name and zero bytes, none of them the name's; any other field names the empty string |
| WireSpec.Utf8ExactlyWhen | src/net/server.rs:445 | bytes are taken for UTF-8 if and only if they encode a sequence of Unicode scalar values |
| WireSpec.BEInverse | src/net/server.rs:435-436 | every field of n bytes is the encoding of its number |
| WireSpec.BigEndian | src/net/server.rs:435-436 | the first byte of a field is the most significant one |
| WireMemory.MemoryBetween | src/net/server.rs:437 | however the free memory varies between two bounds, the frames handed on lie between those of the bounds |
| WireMemory.SteadyMemory | src/net/server.rs:437 | when both bounds decide every header alike, the variation does not show |
| WireMemory.RequestsSurvive | src/net/server.rs:417-452 | well-formed requests that fit the smaller amount decode to themselves whatever the memory does |
| ConnectionLoop.Connection.ParseFrames | src/net/server.rs:424-452 | in place, with the memory read anew at every header: splits off whole frames in order and stops only at an unknown command byte, at a size above 4 GiB or of which nine quarters reach the free memory, or where the rest is incomplete |
| ConnectionLoop.Connection.ReadBuffer | src/net/server.rs:411-452 | in place, for any cut into reads, varying memory and a stop signal before any read: the frames are those parsed off what was read, and reading ends for the signal, the end of the stream or a refused header only; with fixed memory and no signal, exactly the model's session |
| Registry.RegisteredHasQueue | src/net/server.rs:504-546 | while nobody holds both write guards every registered id has a queue |
| Registry.EveryRunKeeps | src/net/server.rs:299-315 | in every interleaving from the start, names map to different ids, registered ids have queues while nobody writes, and no lookup answers `QueueNotFound` |
| Registry.LookupIsCurrent | src/net/server.rs:299-315 | whatever other threads do in between, what a lookup has found is what the maps hold now |
| Registry.OthersUnaffected | src/net/server.rs:504-546 | no step changes what a name leads to but the writes of a creation or deletion of that name |
| Registry.NameIsStable | src/net/server.rs:504-546 | so a name keeps its queue throughout any run in which nobody creates or deletes it |
| Registry.CreateRegisters | src/net/server.rs:504-525 | in every interleaving: half-way a creation's name leads nowhere, and once done, until its guards are gone, to the new queue, or to the old one if it was taken |
| Registry.DeleteUnregisters | src/net/server.rs:526-546 | in every interleaving: half-way a deletion's queue is there and no name leads to it, and once done name and queue are gone |
| Registry.OutcomeIsDecided | src/net/server.rs:504-546 | in every interleaving: a creation ends in `Created` or `QueueAlreadyExists`, a deletion in `Deleted` or `QueueDoesNotExist`, the second and the third if and only if the name was registered when the handler had its write guards |
| Registry.CreateAlone | src/net/server.rs:504-525 | run to its end with nobody inside, a creation of an unused name makes it lead to the new queue and changes nothing else; of a registered one it changes nothing |
| Registry.DeleteAlone | src/net/server.rs:526-546 | likewise a deletion forgets a registered name with its queue, and changes nothing for an unknown one |
| Registry.LookupAlone | src/net/server.rs:299-315 | likewise a lookup answers the queue the name leads to, or which map lacks it |
| Registry.WaitsExactlyWhen | src/net/server.rs:299-546 | a handler has to wait if and only if another holds the guard it asks for in a way that excludes it |
| RegistryDeadlock.CrossedForever | src/net/server.rs:299-546 | when a lookup holds the id map and a creation or deletion the name map, each waits forever in every continuation, and the maps never change again |
| RegistryDeadlock.JammedExactlyWhen | src/net/server.rs:299-546 | nobody inside can take a step if and only if two threads stand like that and all others inside are they or ask for the name map |
| RegistryDeadlock.DeadlockReachable | src/net/server.rs:316-318 | it happens: two steps of a lookup, then two of a creation |

## Left out

- Arena.ArenaAllocator.ReserveUsed: spurious failures of the compare-exchange, but no other thread; the retry loop under interference is in `ArenaThreads`.
- Arena.ArenaAllocator.AllocFromBump: likewise.
- Arena.ArenaAllocator.Dealloc: what the system allocator does with a pointer it is passed, and the wake-up of the defragmenter at every 32nd call.
- ArenaMemory.EveryMemRunRefines: a critical section is one step (`ArenaSections` shows that stores of others between its own do not matter), a defragmentation any stores to free nodes that yield the defragmented list; the two header words are written, and read, in one step, since only their owner touches them.
- BrokerQueue.Queue.FindBiggestPayloads: a rescan counts a message still queued again, as the code does; sizes are not per message.
- Wire.ChunksDoNotMatter: free memory is one fixed number during a connection, since with varying memory the cut can matter; `WireMemory` and `ConnectionLoop.Connection.ReadBuffer` let it vary.
- Registry.EveryRunKeeps: a handler that asks for a guard gets it whenever no other excludes it; the queue of waiters in tokio's locks, which can make one wait longer, is not modelled. ListM and NetStats, which read the maps, are not modelled.
- In general a queue gives no liveness guarantee; `QueueWitnesses` shows why.
- `mmap` and `VirtualAlloc`, raw-pointer provenance, memory orderings weaker than sequential consistency, mutex poisoning.
- Sockets, tasks, response delivery and error codes on the wire, logging, shutdown and draining signals.
- `Pool`, configuration parsing, request and response code tables, `NetQueueConfig`, message metadata bytes, statistics encoders: finite or straight-line code.
- Capacity-based size estimates, which depend on library internals and floating point.
- When the server calls `set_locked_size` and with which sizes; the allocator is proved for any calls.
