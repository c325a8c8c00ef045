# Aligned buffers and their pools, modelled in Dafny

The repository is a byte buffer whose block starts with a hidden header. A unique buffer can be
frozen into reference-counted shared handles, thawed again, and returned to a lock-free pool by
whoever drops the last handle. On top of that it has a scratch stack allocator, two maps that
track shared pointers, and a pool of validators.

The model has two views of a block.

- `Lifecycle*.dfy` is the concurrent view. Every atomic operation (`fetch_add`, `fetch_sub`,
  `load`, `store`, upgrade of the weak pool reference, its release, queue push, queue pop) is one
  step of a transition system with any number of blocks and handles. A step that touches a dead
  block, reads outside one, releases the pool once too often or hands back a layout the block was
  not allocated with is a fault. The invariant says where each block is; the theorems are about
  every interleaving.
- The other files are the sequential view, down to bytes. `Memory.System` is the system
  allocator: a map from addresses to blocks, each with its layout, whose allocations may fail and
  land anywhere suitable; it counts what it refused. Freeing or resizing demands the exact layout,
  as a precondition. On it stand the allocator trait, the header words, the raw buffer with its tagged capacity, the unique
  and shared buffers, the pool, and the serializer's scratch stack.

| file | contents |
|---|---|
| `Lifecycle.dfy` | the transition system |
| `LifecycleInvariant.dfy`, `LifecycleSteps.dfy` | the invariant, and that each kind of step keeps it |
| `LifecycleRuns.dfy`, `LifecycleFreeze.dfy`, `LifecycleContents.dfy`, `LifecycleQueue.dfy`, `LifecycleProgress.dfy` | theorems over steps and runs: safety, freezing and thawing, what handles show, the order of the queue, termination and leaks |
| `LifecycleCalls.dfy`, `PoolRuns.dfy` | whole calls of one thread as steps of the transition system, and that the pool's calls on bytes are such calls |
| `Words.dfy`, `Bits.dfy` | 64-bit words and bitwise operators |
| `TaggedCap.dfy`, `Layouts.dfy`, `BlockLayouts.dfy` | the tag bit, the mask trick and layout extension, the layout of a block |
| `Memory.dfy`, `Allocators.dfy` | the system allocator, `Global` and the trait's defaults |
| `Headers.dfy`, `RawBuffers.dfy` | the bytes of a block, and the raw buffer |
| `BufferRuns.dfy`, `UniqueBuffers.dfy`, `SharedBuffers.dfy` | runs of operations, and the two buffer types |
| `BufferPools.dfy` | the pool with its drop guard |
| `ScratchRuns.dfy`, `Serializers.dfy` | the scratch stack, over whole runs and over a buffer |
| `Rentals.dfy` | the lending that the pools of maps have in common |
| `SharingMaps.dfy`, `SharingPools.dfy` | the serializer's sharing map, and the pool it is rented from |
| `Validators.dfy` | the validator's map, and the validator pool |

Where a promise is not kept by the code, the model keeps the code and states exactly when it
holds:

- `push_alloc` computes its padding before the buffer may move, and a buffer without a block has
  address 1. `ScratchRuns.AlignedWhereverItGoes` gives the exact condition for an aligned result,
  `ScratchRuns.FirstAllocationIsMisaligned` an input that misses it.
- A returned sharing map is not cleared. `SharingPools.RentalLikeNewIff` says which rentals
  nevertheless see a map as good as new, `SharingPools.SecondRentalIsPending` is a run with one
  that does not. Validators are cleared, and their pool is invisible:
  `Validators.ValidatorPool.Execute`.
- `remaining_mut` subtracts from a constant that is below some capacities when the block's
  alignment is under 128: `BlockLayouts.RemainingNeverUnderflows`.
- `advance_mut` checks a sum of machine words. A count that makes the sum wrap, which its caller
  must not give, passes the check and cuts the buffer short:
  `UniqueBuffers.UniqueAlignedBuffer.AdvanceMut`.
- `pop_alloc` only looks at where an allocation lies. Popping one a second time after a push in
  between is refused in some cases and cuts into what was pushed in the others:
  `ScratchRuns.StalePopIff`, with both in `ScratchRuns.StalePopMayCut`.
- The zero-sized pointer of `Global` has alignment 1 only: `Allocators.PointerIsAligned`.
- Finishing a shared pointer at the last position panics: `SharingMaps.FinishAnswers`.
- `ref_count` on a handle without a block contradicts its own debug assertion; the model follows
  the release behaviour, which answers 1.

The methods named `Execute`, `Call`, `Do` and `Nest` stand for users of these types, and those of
`PoolRuns` for one thread among idle ones; they have no counterpart in the source and make the
results over whole runs speak of the objects in the heap.

Failures that panic or abort are results here: `Failed` is what `reserve` and its relatives panic
or abort with, `Panicked` any other panic.

## Model

| member | source | states |
|---|---|---|
| LifecycleRuns.StepKeepsInv | crates/aligned-buffer/src/raw.rs:557-668 | every step enabled in a state of the invariant is free of faults and keeps the invariant |
| LifecycleRuns.NoFault | crates/aligned-buffer-pool/src/buffer_pool.rs:140-172 | no interleaving of clones, drops, thaws, pool returns and teardown touches a dead block, frees one twice or rebuilds a wrong layout |
| LifecycleRuns.OnePlace | crates/aligned-buffer/src/raw.rs:629-668 | in every reachable state a live block is in exactly one place (its handles, one dropper, one queue slot), and a dead block in none |
| LifecycleRuns.CountIsHandles | crates/aligned-buffer/src/raw.rs:557-603 | while a block is held, its word-sized count is the number of handles plus clones and thaws in flight; it never wraps |
| LifecycleRuns.UniqueIsExclusive | crates/aligned-buffer/src/shared.rs:191-199 | a unique handle is alone with its block, and its capacity is the header's |
| LifecycleRuns.LastReference | crates/aligned-buffer/src/raw.rs:643-658 | a drop goes on to dispose of the block if and only if its handle was the last reference; a thaw succeeds under the same condition |
| LifecycleRuns.QueueIsSound | crates/aligned-buffer-pool/src/buffer_pool.rs:158-171 | queued buffers passed the retention policy, carry their block's capacity, have count 1 and respect the bound |
| LifecycleRuns.NoLeak | crates/aligned-buffer-pool/src/buffer_pool.rs:140-172 | when pool and handles are gone and nothing is in flight, every block ever allocated was freed |
| LifecycleProgress.StepDecreases | crates/aligned-buffer-pool/src/buffer_pool.rs:140-172 | whatever the other threads do, each further step of any thread in a clone, thaw, drop or teardown lowers one common measure |
| LifecycleProgress.ContinuesAreBounded | crates/aligned-buffer-pool/src/buffer_pool.rs:140-172 | every interleaving of the operations in flight is shorter than the measure, makes and loses no handle unless one is being made, and keeps the invariant |
| LifecycleProgress.StuckIffIdle | crates/aligned-buffer-pool/src/buffer_pool.rs:158-171 | no operation in flight ever blocks: no step is left exactly when all threads are idle or the process aborted |
| LifecycleProgress.EveryEndIsIdle | crates/aligned-buffer-pool/src/buffer_pool.rs:158-171 | every interleaving that can be extended no further ends with all threads idle or an abort |
| LifecycleProgress.SettleAll | crates/aligned-buffer-pool/src/buffer_pool.rs:317-328 | from any state of the invariant all operations in flight can be run to their end |
| LifecycleProgress.EverythingIsFreed | crates/aligned-buffer-pool/src/buffer_pool.rs:158-171 | from any reachable state without the pool, every interleaving of what is in flight is bounded, and every one that is finished and leaves no handle has freed every block, also where a return races the teardown |
| LifecycleFreeze.StepKeepsFrozen | crates/aligned-buffer/src/raw.rs:169-198 | no step of any thread changes the bytes, lengths or capacity of a shared block except by thawing or letting go of it |
| LifecycleFreeze.FrozenUntilThawed | crates/aligned-buffer/src/shared.rs:191-199 | over any run, the first change to a shared block is a thaw that gives back the same bytes, length and capacity, or its last drop |
| LifecycleFreeze.ShareThenThaw | crates/aligned-buffer/src/unique.rs:1084-1088 | the same, from the moment of sharing in any reachable state |
| LifecycleContents.OthersUntouched | crates/aligned-buffer/src/raw.rs:169-198 | no step of any thread changes what a handle it does not name is, or the bytes and capacity behind it |
| LifecycleContents.AllocateShows | crates/aligned-buffer/src/raw.rs:384-426 | a new buffer shows nothing, in a block of the capacity asked for |
| LifecycleContents.ReallocateShows | crates/aligned-buffer/src/raw.rs:433-483 | a reallocation keeps what the handle shows, and the bytes behind it that fit; the old block is gone |
| LifecycleContents.WriteShows | crates/aligned-buffer/src/unique.rs:896-910 | after a write the handle shows the bytes written, up to the new length |
| LifecycleContents.RestShows | crates/aligned-buffer/src/raw.rs:169-179 | reading and sharing change no byte; a pooled buffer comes back empty with the longest-waiting block |
| LifecycleQueue.StepIsFifo | crates/aligned-buffer-pool/src/buffer_pool.rs:158-171 | each step only appends to the queue or takes its head |
| LifecycleQueue.QueueIsFifo | crates/aligned-buffer-pool/src/buffer_pool.rs:222-229 | over any interleaving, the buffers that entered the queue are those that left it, in the same order, and then those that wait |
| LifecycleSteps.CloneStep | crates/aligned-buffer/src/raw.rs:583-583 | `fetch_add` keeps count and references equal |
| LifecycleSteps.CloneEnd | crates/aligned-buffer/src/raw.rs:594-602 | a clone that saw at most the limit becomes a new shared handle with the reference of its thread; any other aborts the process |
| LifecycleSteps.TryUniqueStep | crates/aligned-buffer/src/shared.rs:191-193 | the load finds 1 exactly if the handle is the only reference, which is then consumed; otherwise nothing changes |
| LifecycleSteps.ThawEnd | crates/aligned-buffer/src/raw.rs:185-198 | reading the capacity back makes a unique handle that fits the block |
| LifecycleSteps.DropHandleStep | crates/aligned-buffer/src/raw.rs:643-645 | `fetch_sub` keeps the count, and gives the block to one dropper when it saw 1 |
| LifecycleSteps.DropperStep | crates/aligned-buffer/src/raw.rs:657-667 | the steps between the last `fetch_sub` and the disposal find the block live and its capacity unchanged |
| LifecycleSteps.PushStep | crates/aligned-buffer-pool/src/buffer_pool.rs:160-163 | a push publishes the block to one slot and takes it from the dropper |
| LifecycleSteps.FreeStep | crates/aligned-buffer-pool/src/buffer_pool.rs:146-151 | the guard frees a live block, with its layout, that nobody else refers to |
| LifecycleSteps.GetStep | crates/aligned-buffer-pool/src/buffer_pool.rs:222-229 | a popped buffer is the only reference to its block |
| LifecycleSteps.DrainStep | crates/aligned-buffer-pool/src/buffer_pool.rs:191-199 | destroying the queue drops each queued buffer as its only handle |
| LifecycleSteps.ReleaseStep | crates/aligned-buffer-pool/src/buffer_pool.rs:324-326 | the temporary strong reference is released once; the last release alone starts the teardown |
| LifecycleSteps.ReallocateStep | crates/aligned-buffer/src/raw.rs:433-483 | moving the block of a unique handle frees the old and adopts the new one |
| LifecycleSteps.ShrinkToZeroStep | crates/aligned-buffer/src/raw.rs:485-513 | shrinking to nothing hands the block to disposal with count 1, starting at the retention policy, without dropping the handle |
| LifecycleSteps.AllocateStep | crates/aligned-buffer/src/raw.rs:384-426 | a fresh block is held by one unique handle with count 1 |
| LifecycleSteps.WriteStep | crates/aligned-buffer/src/unique.rs:896-910 | a unique handle's write stays inside its block |
| LifecycleSteps.ShareStep | crates/aligned-buffer/src/raw.rs:176-179 | sharing turns the only handle into a shared one |
| LifecycleSteps.DropPoolStep | crates/aligned-buffer-pool/src/buffer_pool.rs:233-239 | the pool's own reference is given up once, and starts the teardown if it was the last |
| LifecycleCalls.DropCall | crates/aligned-buffer/src/raw.rs:629-668 | a drop that runs to its end uninterrupted lowers the count, or queues the block exactly if policy, pool and room allow, or frees it, and leaves the strong count as it was: all five paths of steps |
| LifecycleCalls.ShrinkToZeroCall | crates/aligned-buffer/src/raw.rs:485-513 | shrinking to nothing, run to its end, offers the block to the policy and the pool like a last drop, and frees it only otherwise |
| LifecycleCalls.CloneCall | crates/aligned-buffer/src/raw.rs:557-603 | a clone below the limit, run to its end, adds one handle with the same length and one to the count |
| LifecycleCalls.ThawCall | crates/aligned-buffer/src/shared.rs:191-199 | a thaw of the only handle, run to its end, gives a unique one with the length and the capacity in the header |
| LifecycleCalls.DropPoolCall | crates/aligned-buffer-pool/src/buffer_pool.rs:191-199 | the end of the pool, run to its end, empties the queue and frees each queued block once |
| LifecycleCalls.ComesBack | crates/aligned-buffer-pool/src/buffer_pool.rs:222-229 | a wanted buffer given up by its last handle, dropped or shrunk to nothing, is what the next `get` of an empty queue hands out: same block, same bytes, length 0 |
| LifecycleCalls.CallKeepsInv | crates/aligned-buffer-pool/src/buffer_pool.rs:140-172 | a call run to its end keeps the invariant of the life cycle |
| PoolRuns.DropIsCall | crates/aligned-buffer-pool/src/buffer_pool.rs:140-172 | heap and queue before and after the drop of a handle, read as states, are the two ends of that call of the life cycle |
| PoolRuns.DropBuffer | crates/aligned-buffer/src/raw.rs:629-668 | the real drop of a handle is a drop of the life cycle |
| PoolRuns.Get | crates/aligned-buffer-pool/src/buffer_pool.rs:222-229 | the real `get` is that of the life cycle, and the handle it adds is the buffer handed out |
| PoolRuns.DropPool | crates/aligned-buffer-pool/src/buffer_pool.rs:191-199 | the real end of the pool is that of the life cycle |
| PoolRuns.ShrinkEmpty | crates/aligned-buffer/src/raw.rs:485-513 | the real shrinking of an empty pooled buffer is that of the life cycle |
| PoolRuns.Share | crates/aligned-buffer/src/unique.rs:1084-1088 | the real sharing is that of the life cycle |
| PoolRuns.Clone | crates/aligned-buffer/src/shared.rs:206-210 | the real clone is that of the life cycle, and the handle it adds is the one returned |
| PoolRuns.Thaw | crates/aligned-buffer/src/shared.rs:191-199 | the real thaw is that of the life cycle, and fails when it does |
| TaggedCaps.PartsAreIndependent | crates/aligned-buffer/src/raw/cap.rs:26-48 | value and tag do not disturb each other, for every word |
| TaggedCaps.PackUnpack | crates/aligned-buffer/src/raw/cap.rs:21-33 | every value below the tag bit comes back out |
| TaggedCaps.UnpackPack | crates/aligned-buffer/src/raw/cap.rs:21-33 | every word is the packing of its parts |
| TaggedCaps.WithValueIsNew | crates/aligned-buffer/src/raw.rs:176-179 | replacing the value is packing it with the old tag |
| Layouts.MaskTrick | crates/aligned-buffer/src/raw/layout.rs:36-60 | the wrapping mask expression is the least padding to the next multiple, for every power of two and every size, wrapping included |
| Layouts.PaddingIsLeast | crates/aligned-buffer/src/raw/layout.rs:39-41 | that padding reaches a multiple and no smaller one does |
| Layouts.ExtendAgrees | crates/aligned-buffer/src/raw/layout.rs:62-80 | the extension evaluated at compile time panics exactly where the library's fails and otherwise agrees with it |
| BlockLayouts.OffsetIsComputed | crates/aligned-buffer/src/raw.rs:92-99 | the constant the code computes by extending the header's layout is the modelled offset, and it and the largest capacity exist exactly for alignments up to 2^62 |
| BlockLayouts.OffsetIsAligned | crates/aligned-buffer/src/raw.rs:92-97 | the data starts behind the whole header at the first aligned offset |
| BlockLayouts.LayoutIsExtended | crates/aligned-buffer/src/raw.rs:102-115 | for every capacity the library's extension gives the modelled layout, or fails where there is none, and its data offset is the constant |
| BlockLayouts.LayoutOfIs | crates/aligned-buffer/src/raw.rs:102-115 | a layout exists exactly when the block fits the signed limit; it is offset plus capacity and fits below the tag bit |
| BlockLayouts.LayoutFits | crates/aligned-buffer/src/alloc.rs:435-451 | a layout rebuilt from a capacity fits a block exactly when the capacity is the block's |
| BlockLayouts.DataIsAligned | crates/aligned-buffer/src/raw.rs:92-115 | the data pointer is aligned to the buffer's and the block's alignment, wherever the block is |
| BlockLayouts.RemainingNeverUnderflows | crates/aligned-buffer/src/bytes.rs:9-11 | every possible capacity is within the constant if and only if the block's alignment is at least 128 |
| BlockLayouts.MaxCapacityIs | crates/aligned-buffer/src/raw.rs:99-99 | the constant keeps exactly 64 bytes back from what fits below the tag bit |
| Allocators.AllocImpl | crates/aligned-buffer/src/alloc.rs:470-484 | one block is added, zeroed if asked for, or nothing changes; size 0 takes no memory |
| Allocators.Deallocate | crates/aligned-buffer/src/alloc.rs:543-549 | exactly the given block is gone |
| Allocators.Copy | crates/aligned-buffer/src/alloc.rs:523-523 | the first bytes of one block are copied into another, and nothing else changes |
| Allocators.GrowImpl | crates/aligned-buffer/src/alloc.rs:488-528 | the old block is consumed once, its bytes come first, zeros after if asked for; an error changes nothing |
| Allocators.Shrink | crates/aligned-buffer/src/alloc.rs:574-613 | the same for a smaller block, and for size 0 |
| Allocators.MoveTo | crates/aligned-buffer/src/alloc.rs:169-193 | allocate, copy and free meet the same contract |
| Allocators.DefaultGrow | crates/aligned-buffer/src/alloc.rs:169-193 | the trait's default growth meets the contract of the fast path |
| Allocators.DefaultShrink | crates/aligned-buffer/src/alloc.rs:296-320 | the trait's default shrinking meets the contract of the fast path |
| Allocators.ResizedAgree | crates/aligned-buffer/src/alloc.rs:488-613 | two implementations of the contract differ only in addresses and unpromised bytes |
| Allocators.PointerIsAligned | crates/aligned-buffer/src/alloc.rs:470-473 | a returned pointer is aligned exactly if the size is not 0 or the alignment is 1 |
| Headers.DecodeEncode | crates/aligned-buffer/src/raw.rs:38-42 | header words survive their bytes |
| Headers.CountIsSet | crates/aligned-buffer/src/raw.rs:658-658 | storing the count changes neither capacity nor data |
| Headers.CapIsSet | crates/aligned-buffer/src/raw.rs:476-476 | storing the capacity changes neither count nor data |
| Headers.DataIsSet | crates/aligned-buffer/src/unique.rs:905-909 | a store into the data leaves the header alone |
| Headers.PrefixIsKept | crates/aligned-buffer/src/raw.rs:451-458 | a resized block keeps header and data prefix |
| Headers.DataIsCapacity | crates/aligned-buffer/src/raw.rs:405-415 | the data of a block is as long as its recorded capacity |
| RawBuffers.GrownIs | crates/aligned-buffer/src/raw.rs:331-349 | doubling does not wrap, the new capacity suffices, and a sum that overflows a word has no layout |
| RawBuffers.NeedsIs | crates/aligned-buffer/src/raw.rs:318-322 | the wrapping comparison asks for growth exactly when the room is too small or, for a length above the capacity, when the sum overflows |
| RawBuffers.WriteHeader | crates/aligned-buffer/src/raw.rs:408-415 | a new block gets count 1 and its capacity, and no other block changes |
| RawBuffers.Move | crates/aligned-buffer/src/raw.rs:437-476 | a resize keeps count and data prefix and updates the capacity; an error changes nothing |
| RawBuffers.WriteCount | crates/aligned-buffer/src/raw.rs:583-583 | an atomic update changes the count of one block and nothing else |
| RawBuffers.WriteBlock | crates/aligned-buffer/src/unique.rs:905-908 | a raw store changes the data of one block and nothing else |
| RawBuffers.RawAlignedBuffer.WriteData | crates/aligned-buffer/src/unique.rs:905-908 | the same through the data pointer |
| RawBuffers.RawAlignedBuffer.Alloc | crates/aligned-buffer/src/raw.rs:384-426 | success gives an owned block of that capacity; without a layout it overflows; else it fails only if the allocator refuses, with that layout; a failure changes nothing |
| RawBuffers.RawAlignedBuffer.Realloc | crates/aligned-buffer/src/raw.rs:433-483 | the same for an existing block, keeping the data that fits and every other block |
| RawBuffers.RawAlignedBuffer.GrowTo | crates/aligned-buffer/src/raw.rs:363-377 | growth to a capacity, from a block or from none |
| RawBuffers.RawAlignedBuffer.GrowAmortized | crates/aligned-buffer/src/raw.rs:331-349 | the new capacity is at least 8, twice the old one and what is needed |
| RawBuffers.RawAlignedBuffer.TryReserve | crates/aligned-buffer/src/raw.rs:244-254 | nothing moves if the capacity suffices; else growth or an error that changes nothing; for a length above the capacity it never allocates |
| RawBuffers.RawAlignedBuffer.TryReserveExact | crates/aligned-buffer/src/raw.rs:286-296 | the capacity becomes exactly what is needed; for a length above the capacity it never allocates |
| RawBuffers.RawAlignedBuffer.Shrink | crates/aligned-buffer/src/raw.rs:485-516 | the capacity becomes the given one; for 0 the block is freed and nothing can fail; a larger one panics |
| RawBuffers.RawAlignedBuffer.DeallocSlow | crates/aligned-buffer/src/raw.rs:522-527 | the block is freed with the layout rebuilt from the capacity |
| RawBuffers.RawAlignedBuffer.ResetLen | crates/aligned-buffer/src/raw.rs:176-179 | the word becomes the length; header, data and tag stay |
| RawBuffers.RawAlignedBuffer.ResetCap | crates/aligned-buffer/src/raw.rs:185-198 | the word becomes the recorded capacity again |
| RawBuffers.RawAlignedBuffer.RefCount | crates/aligned-buffer/src/raw.rs:531-546 | the count in the header, 1 without a block |
| RawBuffers.RawAlignedBuffer.RefClone | crates/aligned-buffer/src/raw.rs:557-603 | one more count and a second handle to the same data, or an abort past the limit |
| RawBuffers.RawAlignedBuffer.Drop | crates/aligned-buffer/src/raw.rs:629-668 | the last handle frees exactly its block; any other only lowers the count |
| RawBuffers.RawAlignedBuffer.DataPointerIsAligned | crates/aligned-buffer/src/raw.rs:706-714 | in every valid state with a block the data pointer is aligned |
| BufferRuns.RunRefines | crates/aligned-buffer/src/unique.rs:414-647 | steps that each act as on a plain byte sequence add up to the plain run; used by `Execute` |
| BufferRuns.GrowthIsAmortised | crates/aligned-buffer/src/raw.rs:331-349 | over any run of amortised growth from an unallocated buffer, all reallocations together move at most the final capacity; `Execute` states it of the buffer |
| BufferRuns.GrowthAtLeastDoubles | crates/aligned-buffer/src/raw.rs:343-346 | every growth at least doubles and reaches 8 |
| BufferRuns.PushesStayTight | crates/aligned-buffer/src/unique.rs:896-910 | pushing never leaves a capacity above 8 and twice the length; `Execute` states it of the buffer |
| BufferRuns.PushAllAppends | crates/aligned-buffer/src/unique.rs:1189-1192 | pushing items one by one appends them, and moves nothing while they fit |
| BufferRuns.PutAppendsEverything | crates/aligned-buffer/src/bytes.rs:44-54 | however a source is cut into chunks, `put` appends its bytes in order |
| UniqueBuffers.UniqueAlignedBuffer.Execute | crates/aligned-buffer/src/unique.rs:414-1080 | whatever calls a user makes, some of them failing, the buffer in the heap shows what the successful ones make of a plain byte sequence, with the length within the capacity; its growth is amortised and pushes keep it tight; no other block changes; and if the allocator refuses nothing, only overflows fail |
| UniqueBuffers.UniqueAlignedBuffer.Call | crates/aligned-buffer/src/unique.rs:414-1080 | each call succeeds as on a plain byte sequence or changes nothing; it fails only if it needs memory, by an overflow exactly when no layout exists, else by a refusal |
| UniqueBuffers.WithCapacity | crates/aligned-buffer/src/raw.rs:125-138 | an empty buffer of exactly that capacity, without a block for 0 |
| UniqueBuffers.UniqueAlignedBuffer.TryReserve | crates/aligned-buffer/src/unique.rs:485-493 | contents stay; the capacity stays if there is room and is doubled, or as needed, and at least 8 if not; a failure changes nothing |
| UniqueBuffers.UniqueAlignedBuffer.TryReserveExact | crates/aligned-buffer/src/unique.rs:534-542 | contents stay, the capacity is the larger of old and needed, and what fits does not fail |
| UniqueBuffers.UniqueAlignedBuffer.ShrinkToFit | crates/aligned-buffer/src/unique.rs:559-569 | contents stay, capacity becomes the length, and an empty buffer gives its block up |
| UniqueBuffers.UniqueAlignedBuffer.ShrinkTo | crates/aligned-buffer/src/unique.rs:590-597 | capacity falls to the larger of length and minimum, never rises; contents stay |
| UniqueBuffers.UniqueAlignedBuffer.Truncate | crates/aligned-buffer/src/unique.rs:644-648 | a prefix remains, the capacity stays |
| UniqueBuffers.UniqueAlignedBuffer.SetLen | crates/aligned-buffer/src/unique.rs:874-878 | the buffer shows that many of the bytes written |
| UniqueBuffers.UniqueAlignedBuffer.Clear | crates/aligned-buffer/src/unique.rs:968-970 | nothing remains, the capacity stays |
| UniqueBuffers.UniqueAlignedBuffer.WriteBytes | crates/aligned-buffer/src/unique.rs:1073-1073 | a write behind the length is not visible yet, and extends what was written |
| UniqueBuffers.UniqueAlignedBuffer.Store | crates/aligned-buffer/src/unique.rs:947-948 | the copy and the new length make the bytes visible at the end |
| UniqueBuffers.UniqueAlignedBuffer.Push | crates/aligned-buffer/src/unique.rs:896-910 | one byte is appended through whatever reallocation, or nothing changes; with room for it, it succeeds |
| UniqueBuffers.UniqueAlignedBuffer.Append | crates/aligned-buffer/src/unique.rs:943-949 | the slice is appended, or nothing changes; with room for it, it succeeds |
| UniqueBuffers.UniqueAlignedBuffer.Resize | crates/aligned-buffer/src/unique.rs:1025-1033 | a prefix remains, or the contents with that value in every new place; within the capacity it succeeds |
| UniqueBuffers.UniqueAlignedBuffer.ExtendWith | crates/aligned-buffer/src/unique.rs:1061-1080 | the contents, and the value in every place behind them; with room it succeeds |
| UniqueBuffers.UniqueAlignedBuffer.Fill | crates/aligned-buffer/src/unique.rs:1064-1079 | the write loop behind a length that is set once |
| UniqueBuffers.UniqueAlignedBuffer.WriteItems | crates/aligned-buffer/src/unique.rs:1159-1187 | the bounded loop appends what the iterator gives until room or items run out |
| UniqueBuffers.UniqueAlignedBuffer.Extend | crates/aligned-buffer/src/unique.rs:1153-1193 | a prefix of the items is appended, in order, for every size hint: all of them unless memory runs out, which it does not if they and the hint fit, also when the iterator panics after them; an item whose push fails is lost |
| UniqueBuffers.UniqueAlignedBuffer.ExtendRoomed | crates/aligned-buffer/src/unique.rs:1159-1193 | the same behind the reservation: a failure comes only from a full buffer |
| UniqueBuffers.UniqueAlignedBuffer.PushRest | crates/aligned-buffer/src/unique.rs:1189-1192 | the fallback loop pushes the rest |
| UniqueBuffers.UniqueAlignedBuffer.Put | crates/aligned-buffer/src/bytes.rs:44-54 | the chunks taken are appended, all of them unless memory runs out for one that does not fit; the loop ends |
| UniqueBuffers.UniqueAlignedBuffer.PutBytes | crates/aligned-buffer/src/bytes.rs:61-75 | the contents, and the value in every place behind them; advancing never panics, and with room it succeeds |
| UniqueBuffers.UniqueAlignedBuffer.AdvanceMut | crates/aligned-buffer/src/bytes.rs:14-24 | what was written behind the length becomes visible; a sum past the capacity panics and changes nothing, unless it wraps: then the buffer is cut to the wrapped length |
| UniqueBuffers.UniqueAlignedBuffer.ChunkMut | crates/aligned-buffer/src/bytes.rs:27-39 | the rest of the block, never empty, from the length to the capacity |
| UniqueBuffers.UniqueAlignedBuffer.RemainingMut | crates/aligned-buffer/src/bytes.rs:9-11 | what is left below the signed limit, less offset, length and 64, wrapped only below block alignment 128 |
| SharedBuffers.IntoShared | crates/aligned-buffer/src/unique.rs:1084-1088 | the shared handle shows the same bytes, and the header keeps the capacity |
| SharedBuffers.SharedAlignedBuffer.TryUnique | crates/aligned-buffer/src/shared.rs:191-199 | succeeds exactly for count 1, and then gives back bytes, length and capacity; otherwise changes nothing |
| SharedBuffers.SharedAlignedBuffer.Clone | crates/aligned-buffer/src/shared.rs:206-210 | a second handle to the same bytes |
| BufferPools.BufferPool.DeallocateBuffer | crates/aligned-buffer-pool/src/buffer_pool.rs:140-172 | the block is queued exactly if the policy wants it, the pool is there and the queue has room, and is otherwise freed: once, on each of the four paths |
| BufferPools.BufferPool.DropGuard | crates/aligned-buffer-pool/src/buffer_pool.rs:146-151 | dropping the guard frees its block and leaves the queued ones |
| BufferPools.FreeBlock | crates/aligned-buffer-pool/src/buffer_pool.rs:147-150 | the layout rebuilt from the queued capacity is the block's |
| BufferPools.BufferPool.DropBuffer | crates/aligned-buffer/src/raw.rs:629-668 | a handle that is not the last lowers the count; the last one's block goes to the queue with its recorded capacity or is freed; without a block nothing happens |
| BufferPools.BufferPool.DropLast | crates/aligned-buffer/src/raw.rs:657-667 | the last drop restores the count and returns the block |
| BufferPools.BufferPool.GiveUp | crates/aligned-buffer/src/raw.rs:487-501 | a block given up with count 1 is queued exactly if the policy wants it, the pool is there and the queue has room, and is otherwise freed; the buffer is left without one |
| BufferPools.BufferPool.ShrinkEmpty | crates/aligned-buffer/src/unique.rs:559-569 | shrinking an empty pooled buffer gives its block up that way |
| BufferPools.BufferPool.Get | crates/aligned-buffer-pool/src/buffer_pool.rs:222-229 | the longest-waiting buffer, empty, with its capacity and alone with its block; else a new one |
| BufferPools.BufferPool.DropFirst | crates/aligned-buffer-pool/src/buffer_pool.rs:324-326 | a buffer without a pool to return to is freed |
| BufferPools.BufferPool.DropPool | crates/aligned-buffer-pool/src/buffer_pool.rs:191-199 | destroying the pool frees exactly the queued blocks |
| ScratchRuns.Balanced | crates/aligned-buffer-pool/src/serializer_pool.rs:276-321 | every pop of a well-bracketed run succeeds, and the length ends between its start and that rounded up to the largest alignment |
| ScratchRuns.BoundIsReached | crates/aligned-buffer-pool/src/serializer_pool.rs:278-280 | that bound is attained: padding is not given back |
| ScratchRuns.PushIsTight | crates/aligned-buffer-pool/src/serializer_pool.rs:278-288 | a push starts at the first suitably aligned address behind the stack, which then ends with it |
| ScratchRuns.PopAcceptsIff | crates/aligned-buffer-pool/src/serializer_pool.rs:306-320 | a pop succeeds exactly for what lies in the initialised part, cutting back to its start; otherwise nothing changes and the error tells which side it left |
| ScratchRuns.OutstandingStayDisjoint | crates/aligned-buffer-pool/src/serializer_pool.rs:276-321 | over any run that fits, outstanding allocations are in bounds, ordered and disjoint |
| ScratchRuns.OutstandingPops | crates/aligned-buffer-pool/src/serializer_pool.rs:306-310 | any outstanding allocation can be popped |
| ScratchRuns.PoppedStaysGone | crates/aligned-buffer-pool/src/serializer_pool.rs:306-320 | a popped allocation and all later ones are refused through any pops that follow |
| ScratchRuns.SurvivesPopIff | crates/aligned-buffer-pool/src/serializer_pool.rs:300-321 | at any moment of any run, an outstanding allocation survives a pop of any address and size exactly if that is refused or starts behind it |
| ScratchRuns.StalePopIff | crates/aligned-buffer-pool/src/serializer_pool.rs:306-317 | a second pop after a push in between leaves what is outstanding alone exactly if the push ended before the end of the popped allocation; it is then refused with the error told |
| ScratchRuns.StalePopMayCut | crates/aligned-buffer-pool/src/serializer_pool.rs:306-317 | one run where the second pop is refused and one where it cuts the pushed allocation |
| ScratchRuns.PopsOnlyLower | crates/aligned-buffer-pool/src/serializer_pool.rs:300-321 | no pop, of any address and size, raises the length |
| ScratchRuns.PushRevives | crates/aligned-buffer-pool/src/serializer_pool.rs:276-310 | a push in between can make the popped one acceptable again |
| ScratchRuns.AlignedWhereverItGoes | crates/aligned-buffer-pool/src/serializer_pool.rs:278-293 | the result is aligned in every block the allocator may return for the grown layout if and only if the guard holds: no alignment asked for, no growth, no such layout, or a block already there whose alignment suffices |
| ScratchRuns.FirstAllocationIsMisaligned | crates/aligned-buffer-pool/src/serializer_pool.rs:278-281 | the first 8-aligned allocation of a new scratch buffer whose block is put at 128 is at 391 |
| Serializers.WrappedPad | crates/aligned-buffer-pool/src/serializer_pool.rs:279-279 | the wrapping negation gives the least padding |
| Serializers.Serializer.ExtendZeroed | crates/aligned-buffer-pool/src/serializer_pool.rs:281-290 | the reservation and zeroing append zeros and keep what was there, wherever the buffer moves |
| Serializers.Serializer.PushAlloc | crates/aligned-buffer-pool/src/serializer_pool.rs:276-297 | every byte behind the earlier ones is zero, at the stated address; aligned if the buffer has a block whose alignment suffices, moves included, and whenever the exact guard holds; nothing moves and nothing fails if it fits |
| Serializers.Serializer.PushPadded | crates/aligned-buffer-pool/src/serializer_pool.rs:276-297 | the same without the alignment |
| Serializers.Serializer.PopAlloc | crates/aligned-buffer-pool/src/serializer_pool.rs:300-321 | cuts back to the popped allocation, exactly if it lies in the initialised part, or reports which of the two errors, with the positions, and changes nothing |
| Serializers.Serializer.Nest | crates/aligned-buffer-pool/src/serializer_pool.rs:276-321 | a user making well-bracketed calls on the buffer sees every pop succeed, no move, and the length within the rounded start |
| Serializers.Serializer.Execute | crates/aligned-buffer-pool/src/serializer_pool.rs:276-321 | users pushing and popping on the buffer in any order that fits see it go through exactly the stacks of the run without a move, every pop of an outstanding allocation succeed, and outstanding allocations in bounds and ordered at every moment |
| SharingMaps.MapTellsTheRun | crates/aligned-buffer-pool/src/serializer_pool.rs:237-266 | after any run from an empty map it holds the started addresses, each with the position of its one successful finish |
| SharingMaps.StartAnswers | crates/aligned-buffer-pool/src/serializer_pool.rs:237-251 | an address answers started once, then pending, then finished with exactly that position |
| SharingMaps.FinishAnswers | crates/aligned-buffer-pool/src/serializer_pool.rs:253-266 | a finish succeeds exactly after a start, once, and not at the last position |
| SharingMaps.ComplementRoundTrips | crates/aligned-buffer-pool/src/serializer_pool.rs:245-261 | the nonzero encoding loses nothing and excludes only the last position |
| SharingMaps.RentedLikeNewIffEmpty | crates/aligned-buffer-pool/src/serializer_pool.rs:141-151 | a rented map answers like a new one over all runs exactly if it is empty |
| SharingMaps.UsedLikeNewIff | crates/aligned-buffer-pool/src/serializer_pool.rs:141-151 | a map that calls were made on is like new exactly if none of them started anything |
| SharingMaps.RentedUnify.StartSharing | crates/aligned-buffer-pool/src/serializer_pool.rs:237-251 | the encoded map answers and changes as the decoded one |
| SharingMaps.RentedUnify.FinishSharing | crates/aligned-buffer-pool/src/serializer_pool.rs:253-266 | the same for a finish, whose panic changes nothing |
| SharingPools.LedgerTells | crates/aligned-buffer-pool/src/serializer_pool.rs:53-62 | over any rentals, uses and returns, every map is what all calls since it was new, in every rental it went through, make of an empty one |
| Rentals.LendIsFifo | crates/aligned-buffer-pool/src/serializer_pool.rs:53-62 | an event takes the head of the queue, appends to it, or leaves it as it is, as a return to a full queue does |
| Rentals.LendKeepsOthers | crates/aligned-buffer-pool/src/serializer_pool.rs:141-151 | an event touches no loan but the one it names |
| SharingPools.FirstInFirstOut | crates/aligned-buffer-pool/src/serializer_pool.rs:141-151 | over any run, the maps that returns queued are those that rentals took, in the same order, and then those that wait, until the pool ends |
| SharingPools.RentalLikeNewIff | crates/aligned-buffer-pool/src/serializer_pool.rs:53-62 | after any such run, with a full queue or around the end of the pool, a rented map answers like a new one exactly if none of those calls started anything |
| SharingPools.NextRentalSees | crates/aligned-buffer-pool/src/serializer_pool.rs:53-62 | with one rental at a time the next one gets the very map |
| SharingPools.MapPool.Get | crates/aligned-buffer-pool/src/serializer_pool.rs:141-151 | the longest-waiting map as it is, or a new one |
| SharingPools.MapPool.Drop | crates/aligned-buffer-pool/src/serializer_pool.rs:53-62 | the map goes back uncleared if the pool is there and has room, else it is gone |
| SharingPools.MapPool.End | crates/aligned-buffer-pool/src/serializer_pool.rs:64-71 | the end of the pool drops the queue |
| SharingPools.SecondRentalIsPending | crates/aligned-buffer-pool/src/serializer_pool.rs:53-62 | a second user that starts what the first one started is told it is pending, where a new map says started |
| SharingPools.MapPool.Use | crates/aligned-buffer-pool/src/serializer_pool.rs:237-266 | a call on a rented map changes that map only, with the answer of the transition |
| SharingPools.MapPool.Execute | crates/aligned-buffer-pool/src/serializer_pool.rs:53-62 | whatever users do with a new pool, its queue and rented objects follow the transitions, all answers are theirs, and a rented map is empty exactly if nothing was ever started on it |
| Validators.SharedValidator.StartShared | crates/aligned-buffer-pool/src/validator_pool/shared.rs:61-81 | the map and answer the transition calls for |
| Validators.SharedValidator.FinishShared | crates/aligned-buffer-pool/src/validator_pool/shared.rs:83-101 | the same for a finish |
| Validators.MapTellsTheRun | crates/aligned-buffer-pool/src/validator_pool/shared.rs:60-102 | after any run the map holds each claimed address with the type of its first start, finished if some finish succeeded |
| Validators.StartAnswers | crates/aligned-buffer-pool/src/validator_pool/shared.rs:61-81 | the first start decides all later answers |
| Validators.FinishAnswers | crates/aligned-buffer-pool/src/validator_pool/shared.rs:83-101 | an address finishes at most once, under its own type |
| Validators.ClaimsStay | crates/aligned-buffer-pool/src/validator_pool/shared.rs:67-99 | a claim never changes its type and a finish is never undone |
| Validators.ValidatorPool.Rent | crates/aligned-buffer-pool/src/validator_pool.rs:42-54 | a rented validator is empty, and queue and loans change as the transition says |
| Validators.ValidatorPool.Return | crates/aligned-buffer-pool/src/validator_pool.rs:98-105 | queue and loans change as the transition says: the map is cleared and queued if the pool is there and has room, else it is gone |
| Validators.ValidatorPool.End | crates/aligned-buffer-pool/src/validator_pool.rs:19-22 | the end of the pool drops the queue |
| Validators.ValidatorPool.Execute | crates/aligned-buffer-pool/src/validator_pool.rs:42-105 | whatever users do with a pool and the validators it hands out, every answer is that of brand-new validators |
| Validators.PooledIsFresh | crates/aligned-buffer-pool/src/validator_pool.rs:98-105 | over all interleaved rentals, uses, returns and the end of the pool, every answer of the transitions is that of brand-new validators |

## Left out

- Atomic memory orderings: steps interleave sequentially.
- The internals of the bounded queue and of `Arc`: the queue is an atomic bounded FIFO, `Arc` a strong count with upgrade; weak counts, and with them the control block kept alive by a forgotten buffer, are not modelled.
- Thread bound: `Lifecycle.ValidConfig` allows at most 2^63 - 1 threads, the assumption the source states at crates/aligned-buffer/src/raw.rs:585-593; the count could wrap otherwise.
- Concurrency as classes: `Lifecycle` is a step relation on values; the classes in the other files are the same operations run by one thread. `PoolRuns` ties drop, `get` and the end of the pool to it, for one thread while the others are idle.
- The retention policy is a function of the capacity alone, without state.
- That a caller holds a borrow of the handle it clones: a clone in flight may outlive its handle in the model, which allows more than the source.
- `Layout::from_size_align_unchecked` with sizes it must not be given, and `Layout::extend`, are taken by their documentation: an error for a size above the signed limit less the alignment.
- Allocators that return more than was asked for: `Global` returns exact sizes, and so does `Memory.System`.
- The 32-bit `alloc_guard`: words have 64 bits.
- LifecycleRuns.OnePlace: handles without a block own nothing and are not tracked.
- UniqueBuffers.UniqueAlignedBuffer.Put: a source that yields an empty chunk while it has bytes left, which its trait forbids, would keep the loop running; the model requires nonempty chunks.
- UniqueBuffers.UniqueAlignedBuffer.Extend: the iterator is the sequence of items it yields, followed by an end or a panic; `FromIterator` is `WithCapacity` and then `Extend`.
- ScratchRuns.AlignedWhereverItGoes: a block may get any address that is aligned, not null and inside memory; blocks of others in the way are not counted.
- ScratchRuns.OutstandingStayDisjoint: runs whose pushes fit the capacity; a reallocation invalidates outstanding pointers.
- Hash map internals, `TypeId` (a number here), and the archive validator behind the shared one.
- Wrappers over rkyv, the owned archive crate, formatting, indexing, dereferencing, raw-parts accessors and the forwarding allocator for references: no property of their own.
