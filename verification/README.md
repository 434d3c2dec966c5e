# A verified model of mugglec

mugglec is a C base library. This project models its hardest parts in Dafny 4.11 and proves what they promise:

- lock-free and monitor-style concurrency (the thread-safe memory pool, the ring buffer, the channel, the array blocking
  queue, the one-allocator/one-freer pool), as interleaved steps of any number of threads;
- the AVL tree with parent pointers, stored balances and iterative retracing;
- ring-shaped allocators and buffers (memory pool, pointer slot, bytes buffer) against the simple things they stand for;
- the binary heap and the five sorts;
- AES, DES and TDES without the OpenSSL-derived paths, and the block cipher modes over any block function;
- the rounding of capacities to powers of two, which every masked ring relies on.

`dafny verify dfyconfig.toml` checks the whole project.

## How the model is built

*Concurrent components* are transition systems. `State` holds the shared fields and, per thread, where it stands inside
the C function; `Act` is one atomic step; `Enabled` and `After` give its guard and effect. `Inv` is inductive
(`StepSafe`), and the theorems quantify over every run (`Legal`, `Exec`) of any number of threads. Memory is sequentially
consistent. A compare-exchange may fail spuriously, as the weak form in the code may, and the act says whether it did;
what such a failure does is proved, not assumed away.

*Objects updated in place* are classes with the C fields and methods with the C loops. The AVL tree keeps links,
balances and entries in maps from addresses, so its methods are pointer updates; ghost trees and contexts say what the
links mean. Arrays that an algorithm permutes or fills in place are Dafny arrays.

*Callbacks*: a comparison is any function that is a total preorder with consistent signs (`Order.Lawful`). A block cipher
under a mode is any function on blocks. The Feistel lemmas hold for any round function; the one of DES, with its boxes
and its key schedule, is modelled bit by bit (`DesRound`, `DesKey`), and again on machine words with the shifts, masks and
tables of the code (`DesWords`, `DesKeyWords`, `DesBlockWords`); the two are proved equal.

*Integers* are unbounded, and widths are written out where the code wraps: 32-bit cursors in the channel, the pools and
the pointer slot, 64-bit counters in CTR, 64-bit arithmetic in `next_pow_of_2`, the 32-bit count in heap sort.

## Where the code and the clean statement part

Each of these is a theorem: the property holds if and only if a condition on the call holds, or an input shows what happens.

- Thread-safe pool: after a failed weak compare-exchange the loop compares the expected cursor with the *masked* position.
  A spurious failure keeps the blocks partitioned if and only if the cursor has reached the capacity
  (`TsPool.SpuriousFailure`), so every run keeps each block in one place if and only if the failure does not happen below
  the capacity or no thread allocates (`TsPool.PartitionedExactly`).
- Ring buffer, busy-loop writers: published tickets keep their message if and only if there are at most `capacity`
  writers (`RingBuffer.WritersAtMostCapacity`). No run loses a ticket if and only if the exchange is strong or nobody
  writes (`LostExactly`), and once lost a ticket blocks the cursor in every continuation (`LostForever`).
- Channel: no value is lost if and only if the capacity is at least two (`Channel.CapacityAtLeastTwo`). The futex write
  lock takes a spurious failure for success. Every run delivers in order if and only if the exchange is strong, or there is
  one writer, or the capacity of two leaves no room for a value (`Channel.InOrderExactly`).
- Memory pool: after growing, taking a block and giving it back, every block is in one place if and only if a block was
  out before (`MemoryPool.GrowthExactly`). Growing an unused pool leaves the free index behind, so that one block then waits
  twice and another not at all (`EmptyGrowthRepeats`). The doubling in `alloc` wraps at 2^31 blocks
  (`MemoryPool.Alloc`).
- Pointer slot: `init` allocates the requested and masks with the rounded capacity. Every sequence of insertions stays
  inside the arrays if and only if the request is a power of two (`PointerSlot.RequestExactly`); otherwise the first
  insertion after the request is used up and a get behind the last slot leave them (`PastTheEnd`).
- Bytes buffer: a read takes exactly what it returns if and only if it does not end on a truncate mark that a jump left
  behind (`BytesBuffer.ConservedExactly`); such a state is reached from a new buffer by five calls (`StaleMarkReached`),
  and every run without such a read is first in, first out (`FirstInFirstOut`).
- CFB and CBC decryption in one array feed the plaintext back. For every block cipher, chaining value and message, CBC in
  place returns the message if and only if encryption left every block but the last unchanged
  (`InPlaceCbc.InPlaceExactly`), CFB if and only if at each block boundary the encrypted plaintext and ciphertext registers
  agree on the bytes still used (`InPlaceCfb.InPlaceExactly`). So under any one invertible cipher, AES with any key
  included (`AesModes.InPlaceSafeExactly`), CBC and CFB from the start of a block are safe exactly up to one block.
- TDES runs its three stages without swapping the halves in between. With the DES rounds and subkeys of the code, and zeros
  for the middle key, it differs from three DES blocks in a row on some block, for every first and last key
  (`TdesDeparture.NotTriple`). With three equal keys of zeros it is not single DES either (`EqualKeys`). Decryption undoes
  encryption all the same.
- On the key and the plaintext of the DES unit test the rounds of the code give 59964ae7f960286f, where FIPS 46-3 gives
  c95744256a5ed31d (`DesAnswer.KnownAnswer`): the code reads and writes the boxes with the least significant bit first.
  AES gives the ciphertext of appendix C.1 of FIPS 197 (`AesAnswer.KnownAnswer`).
- A ring that is exactly full looks empty to a reader: the test of a read succeeds if and only if the cursor is not a whole
  number of turns ahead (`RingBuffer.LookedExactly`).
- The key schedule of DES puts two bits of each of the last four groups in one position. A subkey is the one of the table
  in the source if and only if the four bits that should come last are clear (`DesKey.Pc2Exactly`).
- `next_pow_of_2` has no shift by 32. It is right if and only if its argument is a power of two, or is below 2^63 and has
  no 32 zeros in a row below its top bit (`NextPow.NextPow2Exactly`); every 32-bit capacity is fine (`SmallIsRight`).
- Heap removal of the last slot compares a released (null) key. The result is right wherever the comparison ranks that
  key (`Heap.Heap.Remove` holds for any `nil`), as long as the callback accepts it.

## Model

| member | source | states |
|---|---|---|
| Ring.MaskIsMod | muggle/c/base/macro.h:160 | masking a cursor with a power-of-two capacity minus one is the remainder, for every cursor |
| NextPow.IsPowTestExactly | muggle/c/base/utils.h:19 | the bit test accepts zero and the powers of two and nothing else |
| NextPow.SmearCovers | muggle/c/base/utils.c:18-22 | after the five shift-or steps bit i is set exactly if the input has a bit among the 32 positions from i on |
| NextPow.NextPow2Exactly | muggle/c/base/utils.c:14-24 | the result is the least power of two not below x if and only if x is a power of two, or x is below 2^63 and has no 32 zeros in a row under its top bit |
| NextPow.NextPowOf2 | muggle/c/base/utils.c:14-24 | the assignments compute that result; every x from 1 to 2^32 is rounded up correctly |
| NextPow.LargeFails | muggle/c/base/utils.c:18-23 | 2^t + 1 is rounded wrongly for every t from 33 to 63 |
| TsPool.StepSafe | muggle/c/memory/threadsafe_memory_pool.c:100-140 | every atomic step of any thread keeps the pool invariant, except a spurious compare-exchange failure below the capacity |
| TsPool.RunPartitions | muggle/c/memory/threadsafe_memory_pool.c:17-140 | in every run of any number of threads every block is in exactly one place: the free ring, one caller, or one thread giving it back |
| TsPool.HandsOutFreeBlock | muggle/c/memory/threadsafe_memory_pool.c:100-124 | a successful compare-exchange hands out the oldest free block, which nobody else has |
| TsPool.NullMeansEmpty | muggle/c/memory/threadsafe_memory_pool.c:106-111 | NULL is returned only if at that instant no block is in the ring: all are with callers or on their way back |
| TsPool.SpuriousFailure | muggle/c/memory/threadsafe_memory_pool.c:120-121 | a spurious failure keeps the partition if and only if the alloc cursor has reached the capacity |
| TsPool.PartitionedExactly | muggle/c/memory/threadsafe_memory_pool.c:17-140 | every run from a new pool keeps each block in one place if and only if the spurious failure below the capacity does not occur or there is no thread; the failing run is one allocation of a new pool |
| RingBuffer.StepSafe | muggle/c/sync/ring_buffer.c:116-209 | every step of writers, private readers and read-once readers keeps ticket order and slot contents |
| RingBuffer.ReadersSeeTicketOrder | muggle/c/sync/ring_buffer.c:116-209 | with at most capacity writers, in every run each private reader has received exactly the first messages in ticket order, and the read-once readers together have received each ticket once, in order |
| RingBuffer.WritersAtMostCapacity | muggle/c/sync/ring_buffer.c:116-132 | published tickets within one turn keep their own message in every run if and only if there are at most capacity writers |
| RingBuffer.SpuriousLoses | muggle/c/sync/ring_buffer.c:126-131 | a spurious failure at the writer's turn makes it return with its ticket unpublished and held by nobody |
| RingBuffer.LostForever | muggle/c/sync/ring_buffer.c:116-209 | in every run that follows, whatever the threads do, a lost ticket stays lost and the cursor does not pass it |
| RingBuffer.LostExactly | muggle/c/sync/ring_buffer.c:116-132 | no run from a new buffer loses a ticket if and only if the compare-exchange is strong or there is no writer |
| RingBuffer.NoLostWake | muggle/c/sync/ring_buffer.c:135-209 | in every run of any threads, spurious failures and late readers included, a reader asleep in the kernel whose test would succeed has a wake-up on its way, and at most one read-once reader is inside the lock, so that waking one is waking all |
| RingBuffer.LookedExactly | muggle/c/sync/ring_buffer.c:155-192 | the test of a read succeeds exactly if the cursor is not a whole number of turns ahead of the position |
| RingBuffer.CheckExactly | muggle/c/sync/ring_buffer.c:155-187 | in every run a private reader that looks finds a message exactly if one is published and the ring is not full |
| RingBuffer.CheckSharedExactly | muggle/c/sync/ring_buffer.c:189-209 | the same for the reader that holds the read lock |
| RingBuffer.OldestPublishes | muggle/c/sync/ring_buffer.c:116-132 | in every run with a strong exchange, of however many writers, while tickets are unpublished some writer holds the oldest, and publishing it once filled moves the cursor |
| Channel.ReadSlot | muggle/c/sync/channel.c:97-104 | the wrapped 32-bit cursors select the slots of the unbounded counts of accepted and taken values |
| Channel.EmptyTest | muggle/c/sync/channel.c:95-113 | the reader's test is true exactly when every accepted value has been taken |
| Channel.FullTest | muggle/c/sync/channel.c:37-82 | the writers' test is true exactly when capacity minus two values wait |
| Channel.RefusedExactly | muggle/c/sync/channel.c:37-82 | the check refuses the write exactly if capacity minus two values wait, and otherwise admits it with its own value |
| Channel.ReadyExactly | muggle/c/sync/channel.c:95-113 | the reader goes on to load exactly if a value waits, and otherwise waits on the cursor it saw |
| Channel.AsleepExactly | muggle/c/sync/channel.c:111 | the reader falls asleep exactly if still nothing has come |
| Channel.StepSafe | muggle/c/sync/channel.c:19-130 | every step of writers and reader keeps the channel invariant, with a strong exchange in the lock, or with one writer, or with a capacity of two |
| Channel.ReaderGetsPrefix | muggle/c/sync/channel.c:19-220 | in those three cases, for capacities 2 to 2^31, in every run the values read are a prefix of the values accepted, at most capacity minus two wait, and a reader asleep with a value waiting has a wake-up on its way |
| Channel.RunRefuses | muggle/c/sync/channel.c:37-82 | in every run of those cases a write is refused exactly if capacity minus two values are unread |
| Channel.WritersGoOn | muggle/c/sync/channel.c:19-82 | in every run, with either exchange, while a call to write is unfinished some such call can take its next step: the lock is held only by a writer inside |
| Channel.CapacityAtLeastTwo | muggle/c/sync/channel.c:132-148 | no run loses a value if and only if the rounded capacity is at least two |
| Channel.InOrderExactly | muggle/c/sync/channel.c:19-130 | every run delivers the accepted values in order if and only if the exchange is strong, or there is at most one writer, or the capacity is two; otherwise two writers fill the same slot and the reader takes the second value for the first |
| BlockingQueue.StepSafe | muggle/c/sync/array_blocking_queue.c:17-128 | every step of any number of producers and consumers keeps the queue invariant |
| BlockingQueue.FifoAndLive | muggle/c/sync/array_blocking_queue.c:17-128 | in every run the array keeps its capacity, takes are a prefix of puts and the count is right and at most the capacity; while a consumer sleeps at most as many items wait as consumers are woken or inside, likewise for producers and free space, so producers and consumers never all sleep |
| BlockingQueue.StuckExactly | muggle/c/sync/array_blocking_queue.c:17-128 | in every run, no call under way can take a step if and only if every such call is a take asleep on an empty queue or a put asleep on a full one |
| SowrPool.SowrPool.constructor | muggle/c/memory/sowr_memory_pool.c:18-46 | a new pool has no block out |
| SowrPool.SowrPool.Alloc | muggle/c/memory/sowr_memory_pool.c:53-74 | with a cached free position however stale, alloc returns a block that is not out, and NULL exactly when capacity minus one are out |
| SowrPool.SowrPool.Free | muggle/c/memory/sowr_memory_pool.c:76-81 | freeing a block frees it and all allocated before it |
| SowrPool.SowrPool.IsAllFree | muggle/c/memory/sowr_memory_pool.c:84-91 | true exactly when no block is out |
| MemoryPool.Sections | muggle/c/memory/memory_pool.c:156-233 | the sections that growth copies are the vacated and the waiting part of the ring |
| MemoryPool.GrowthKeeps | muggle/c/memory/memory_pool.c:114-251 | growth leaves the free index where the waiting blocks end, and the pool valid, if and only if a block is out, and then appends the new blocks to the waiting ones |
| MemoryPool.EmptyGrowthRepeats | muggle/c/memory/memory_pool.c:78-251 | for every unused pool and every larger capacity: growth keeps every block waiting once, but after one block is taken and given back it waits in two slots and another block in none |
| MemoryPool.GrowthExactly | muggle/c/memory/memory_pool.c:78-251 | for every valid pool and every larger capacity: after growing, taking a block and giving it back every block is in one place if and only if a block was out before |
| MemoryPool.Regroup | muggle/c/memory/memory_pool.c:156-246 | the three branches, the section copies and the numbering loop build the new ring: vacated slots, waiting blocks, new blocks |
| MemoryPool.MemoryPool.constructor | muggle/c/memory/memory_pool.c:13-65 | a new pool waits with all its blocks, in order |
| MemoryPool.MemoryPool.EnsureSpace | muggle/c/memory/memory_pool.c:114-251 | when growth is refused, changing nothing, and otherwise the grown ring and indices, for pools in any state |
| MemoryPool.MemoryPool.Alloc | muggle/c/memory/memory_pool.c:78-102 | hands out the oldest waiting block, growing when none waits, and keeps every block in one place, unless doubling the capacity wraps; then it hands out a block that is already out |
| MemoryPool.MemoryPool.Free | muggle/c/memory/memory_pool.c:103-112 | the block joins the end of the waiting ones |
| PointerSlot.NextWaiting | muggle/c/memory/pointer_slot.c:78-101 | the slot next in the free ring is in use exactly when all slots are |
| PointerSlot.LinkLast | muggle/c/memory/pointer_slot.c:87-92 | linking a slot before the tail appends it to the list of live slots |
| PointerSlot.LinkOut | muggle/c/memory/pointer_slot.c:103-132 | unlinking any live slot removes exactly it from the list, wherever it stands |
| PointerSlot.PointerSlot.constructor | muggle/c/memory/pointer_slot.c:18-61 | the new table has the requested number of slots and the capacity that `next_pow_of_2` gives, cut to 32 bits; it is a valid one if and only if the request is a power of two |
| PointerSlot.RequestExactly | muggle/c/memory/pointer_slot.c:18-101 | every sequence of insertions into a new table stays inside its arrays if and only if the request is a power of two |
| PointerSlot.PastTheEnd | muggle/c/memory/pointer_slot.c:18-148 | for every other request, once as many insertions as requested have succeeded, the next reads the ring of pointers one past its end, and a get of the first index behind the slots passes the range test and reads past them, or, above 2^31, no get finds anything |
| PointerSlot.PointerSlot.Insert | muggle/c/memory/pointer_slot.c:78-101 | fails exactly when full; otherwise a slot not in use becomes the last live one and holds the data |
| PointerSlot.PointerSlot.Remove | muggle/c/memory/pointer_slot.c:103-132 | the three outcomes, and on success exactly that slot leaves the live list, the others keeping their order and data |
| PointerSlot.PointerSlot.Get | muggle/c/memory/pointer_slot.c:134-148 | the data of a live slot and nothing for any other index, without leaving the arrays |
| PointerSlot.PointerSlot.Iterate | muggle/c/memory/pointer_slot.c:150-163 | iteration ends and gives the live data in insertion order |
| BytesBuffer.Room | muggle/c/memory/bytes_buffer.c:139-163 | readable counts the queue, and readable plus writable is one less than the capacity (or than the truncate mark) |
| BytesBuffer.NoCapacity | muggle/c/memory/bytes_buffer.c:51-163 | without any capacity every write is refused, only empty reads succeed and no call moves a position |
| BytesBuffer.WriteAhead | muggle/c/memory/bytes_buffer.c:229-243 | a contiguous write appends to the queue |
| BytesBuffer.WriteJump | muggle/c/memory/bytes_buffer.c:245-256 | a write that jumps to the start appends to the queue |
| BytesBuffer.WriteSplit | muggle/c/memory/bytes_buffer.c:257-270 | a write split over the end appends to the queue |
| BytesBuffer.ReadTakes | muggle/c/memory/bytes_buffer.c:190-225 | a read removes exactly the bytes it returns if and only if it does not end on a stale truncate mark |
| BytesBuffer.StaleMarkResurrects | muggle/c/memory/bytes_buffer.c:190-225 | a read that does end there leaves the reader at zero with the writer at the mark, although the queue is empty |
| BytesBuffer.StaleMarkReached | muggle/c/memory/bytes_buffer.c:190-271 | a run of five writes and reads on a new buffer of eight bytes leads to such a read, whatever the bytes |
| BytesBuffer.ConservedExactly | muggle/c/memory/bytes_buffer.c:190-353 | any call, in any state, keeps the byte stream (what waited and what is accepted is what is returned and what waits then) if and only if it is not a read that ends on a stale mark |
| BytesBuffer.FirstInFirstOut | muggle/c/memory/bytes_buffer.c:117-353 | in every run without such a read everything accepted is everything returned followed by what still waits, at most one byte less than the capacity |
| BytesBuffer.BytesBuffer.constructor | muggle/c/memory/bytes_buffer.c:117-128 | the positions of a new buffer, which is an empty queue |
| BytesBuffer.BytesBuffer.Write | muggle/c/memory/bytes_buffer.c:227-271 | succeeds exactly if the bytes fit, then appends them; the new positions and memory are those of the modelled call, and a failed call changes nothing |
| BytesBuffer.BytesBuffer.Fetch | muggle/c/memory/bytes_buffer.c:165-188 | returns the first bytes of the queue exactly if there are enough |
| BytesBuffer.BytesBuffer.Read | muggle/c/memory/bytes_buffer.c:190-225 | returns the first bytes exactly if there are enough and removes them off a stale mark; a failed call changes nothing |
| BytesBuffer.BytesBuffer.WriteInPlace | muggle/c/memory/bytes_buffer.c:273-325 | memory handed out by writer_fc, filled and then moved over, is appended to the queue |
| BytesBuffer.BytesBuffer.ReadInPlace | muggle/c/memory/bytes_buffer.c:327-353 | memory handed out by reader_fc is the front of the queue, and reader_move removes it |
| SortedEntries.PutLaws | muggle/c/dsaa/avl_tree.c:534-659 | inserting keeps entries sorted; a look-up finds the new value exactly if the key was absent before |
| SortedEntries.DeleteLaws | muggle/c/dsaa/avl_tree.c:661-795 | deleting keeps entries sorted; look-ups lose that key and no other |
| SortedEntries.RunIsDictionary | muggle/c/dsaa/avl_tree.c:508-795 | after any run of inserts and removes, look-ups agree with the last effective operation on the key |
| AvlShape.FewestNodes | muggle/c/dsaa/avl_tree.c:410-446 | a balanced tree of height h has at least Fib(h + 2) - 1 nodes |
| AvlTree.AvlTree.constructor | muggle/c/dsaa/avl_tree.c:448-480 | a new tree is empty and valid |
| AvlTree.AvlTree.RotateLeft | muggle/c/dsaa/avl_tree.c:104-167 | the rotation keeps the in-order sequence, repairs links, parents and balances, and reports whether the height fell |
| AvlTree.AvlTree.RotateRight | muggle/c/dsaa/avl_tree.c:171-234 | the mirrored rotation |
| AvlTree.AvlTree.RotateRightLeft | muggle/c/dsaa/avl_tree.c:236-320 | the double rotation, for the three balances of the inner node |
| AvlTree.AvlTree.RotateLeftRight | muggle/c/dsaa/avl_tree.c:322-406 | the mirrored double rotation |
| AvlTree.AvlTree.Rebalance | muggle/c/dsaa/avl_tree.c:410-446 | picks the rotation that makes a subtree of balance 2 or -2 an AVL tree with the same entries |
| AvlTree.AvlTree.RetraceInsert | muggle/c/dsaa/avl_tree.c:612-656 | after a leaf is attached, the loop ends with every balance right and within -1..1 and the same nodes in order |
| AvlTree.AvlTree.RetraceRemove | muggle/c/dsaa/avl_tree.c:729-794 | the same after a leaf is dropped |
| AvlTree.AvlTree.Find | muggle/c/dsaa/avl_tree.c:508-532 | finds the entry the abstract look-up finds, with a Fibonacci bound on the comparisons |
| AvlTree.AvlTree.AttachLeaf | muggle/c/dsaa/avl_tree.c:534-659 | linking a node where the search ended and retracing inserts exactly that entry |
| AvlTree.AvlTree.Insert | muggle/c/dsaa/avl_tree.c:534-659 | the contents become those of the abstract insert; a duplicate key or a failed allocation changes nothing |
| AvlTree.AvlTree.Predecessor | muggle/c/dsaa/avl_tree.c:676-683 | the descent finds the in-order predecessor |
| AvlTree.AvlTree.Successor | muggle/c/dsaa/avl_tree.c:684-691 | the descent finds the in-order successor |
| AvlTree.AvlTree.SinkToLeaf | muggle/c/dsaa/avl_tree.c:666-705 | swapping entries down ends at a leaf, and without it the sequence is the old one without the removed entry |
| AvlTree.AvlTree.Remove | muggle/c/dsaa/avl_tree.c:661-795 | the contents lose exactly the entry of the given node; the tree stays a valid AVL tree |
| AvlTree.AvlTree.DropNode | muggle/c/dsaa/avl_tree.c:707-795 | erasing a leaf, the root included, and retracing from its parent leaves a valid tree with that entry gone |
| HeapOrder.MoveUp | muggle/c/dsaa/heap.c:136-159 | moving the parent into the hole keeps heap order around the hole, and the new entry stays below its children |
| HeapOrder.MoveDown | muggle/c/dsaa/heap.c:179-199 | moving the smaller child into the hole keeps heap order around the hole, and the entry stays above its parent |
| HeapOrder.RootLeast | muggle/c/dsaa/heap.c:166-174 | the root is a minimum of the whole heap |
| Heap.Heap.Init | muggle/c/dsaa/heap.c:15-40 | a new heap is empty and has the capacity asked for, eight for zero; refused exactly if the allocation fails or the capacity is at least `(uint64_t)(1<<31)`, that is 2^64 - 2^31 |
| Heap.Heap.EnsureCapacity | muggle/c/dsaa/heap.c:93-122 | growing keeps entries and order; refused exactly if the allocation fails or the capacity test does |
| Heap.Heap.Insert | muggle/c/dsaa/heap.c:124-164 | keeps heap order and adds exactly that entry; a refused growth changes nothing |
| Heap.Heap.Extract | muggle/c/dsaa/heap.c:166-204 | returns a minimum, removes exactly it and keeps heap order |
| Heap.Heap.Settle | muggle/c/dsaa/heap.c:255-296 | the loop terminates because the hole never turns round, and ends where the entry fits |
| Heap.Heap.Remove | muggle/c/dsaa/heap.c:219-300 | removes exactly the entry at any position, the last one included, and rejects other positions |
| GapSort.InsertionSort | muggle/c/dsaa/sort.c:16-38 | the range is sorted, a permutation of itself, and nothing else changes |
| GapSort.GapPass | muggle/c/dsaa/sort.c:45-60 | a pass leaves every chain with that stride in order and permutes the elements |
| GapSort.ShellSort | muggle/c/dsaa/sort.c:40-64 | sorted permutation |
| HeapSort.Sort | muggle/c/dsaa/sort.c:66-91 | sorted permutation, although the requested capacity is cut to 32 bits and the results of the inserts are ignored, if growth is granted or there are fewer than 2^32 - 1 elements; a failed first allocation changes nothing |
| MergeSort.MergeStable | muggle/c/dsaa/sort.c:101-116 | merging two runs keeps the elements that compare equal to x, those of the left run first |
| MergeSort.MergeSortedSorts | muggle/c/dsaa/sort.c:93-131 | the recursive merge is ascending, a permutation and stable |
| MergeSort.StableUnique | muggle/c/dsaa/sort.c:93-131 | ascending order and stability determine the result uniquely |
| MergeSort.MergeHalves | muggle/c/dsaa/sort.c:101-125 | the three loops write the merge of the two halves |
| MergeSort.SortRange | muggle/c/dsaa/sort.c:93-131 | the recursion in place computes the recursive merge on its range and leaves the rest alone |
| MergeSort.Sort | muggle/c/dsaa/sort.c:133-146 | sorted, a permutation, and stable: every class of equal elements keeps its order; a failed allocation changes nothing |
| QuickSort.Median3 | muggle/c/dsaa/sort.c:148-176 | permutes the range and leaves the pivot next to the right end with sentinels on both sides |
| QuickSort.ScanRight | muggle/c/dsaa/sort.c:189-189 | the unguarded scan stops at the first element not below the pivot, no later than the sentinel |
| QuickSort.ScanLeft | muggle/c/dsaa/sort.c:190-190 | the unguarded scan stops at the first element not above the pivot, no later than the sentinel |
| QuickSort.Partition | muggle/c/dsaa/sort.c:184-207 | permutes the range so that the pivot separates elements not above it from elements not below it |
| QuickSort.SortRange | muggle/c/dsaa/sort.c:179-216 | the range is sorted, a permutation of itself, and nothing else changes |
| QuickSort.Sort | muggle/c/dsaa/sort.c:218-223 | sorted permutation |
| GaloisField.PeasantIsProduct | muggle/c/crypt/internal/internal_aes.c:115-133 | reducing after every doubling gives the carry-less product reduced once modulo x^8 + x^4 + x^3 + x + 1 |
| GaloisField.GaloisMul | muggle/c/crypt/internal/internal_aes.c:115-133 | the loop computes the product in GF(2^8) |
| GaloisField.ProductLinear | muggle/c/crypt/internal/internal_aes.c:115-133 | the product distributes over exclusive or on both sides |
| GaloisField.ProductCommutes | muggle/c/crypt/internal/internal_aes.c:115-133 | two factors may be applied in either order |
| AesSbox.SboxInverse | muggle/c/crypt/internal/internal_aes.c:17-53 | the second table undoes the first, for all 256 bytes |
| AesSbox.InvSboxInverse | muggle/c/crypt/internal/internal_aes.c:17-53 | the first table undoes the second, for all 256 bytes |
| AesSboxField.SboxIsAffineInverse | muggle/c/crypt/internal/internal_aes.c:17-34 | every table entry is the affine image of the inverse of its index in GF(2^8), as section 5.1.1 of FIPS 197 defines it |
| AesColumn.UnmixMix | muggle/c/crypt/internal/internal_aes.c:55-67 | the second column matrix undoes the first over the field |
| AesColumn.MixUnmix | muggle/c/crypt/internal/internal_aes.c:55-67 | the first column matrix undoes the second |
| Aes.SubBytesInverse | muggle/c/crypt/internal/internal_aes.c:158-172 | the substitution step and its inverse undo each other |
| Aes.SourceTurns | muggle/c/crypt/internal/internal_aes.c:174-200 | the row step takes column c of row r from column c + r modulo 4 |
| Aes.ShiftRowsInverse | muggle/c/crypt/internal/internal_aes.c:174-227 | the row step and its inverse undo each other |
| Aes.ColumnsInverse | muggle/c/crypt/internal/internal_aes.c:229-267 | the column step and its inverse undo each other on every state |
| Aes.AddRoundKeyInverse | muggle/c/crypt/internal/internal_aes.c:135-156 | adding a round key twice changes nothing |
| Aes.AddRoundKeyInPlace | muggle/c/crypt/internal/internal_aes.c:135-156 | the sixteen stores mask column c with word c, most significant byte first |
| Aes.SubBytesInPlace | muggle/c/crypt/internal/internal_aes.c:158-164 | every byte is substituted |
| Aes.InvSubBytesInPlace | muggle/c/crypt/internal/internal_aes.c:166-172 | every byte is substituted back |
| Aes.ShiftRowsInPlace | muggle/c/crypt/internal/internal_aes.c:174-200 | the stores rotate row r left by r |
| Aes.InvShiftRowsInPlace | muggle/c/crypt/internal/internal_aes.c:202-227 | the stores undo that rotation |
| Aes.ColumnsInPlace | muggle/c/crypt/internal/internal_aes.c:229-267 | the loops multiply every column by the matrix over the field |
| Aes.CipherInverse | muggle/c/crypt/internal/internal_aes.c:295-619 | the cipher and the inverse cipher of FIPS 197 undo each other, for every state, key schedule and number of rounds |
| AesRounds.FirstEquation | muggle/c/crypt/internal/internal_aes.c:315 | byte r of column c is masked with byte r of word c of the schedule |
| AesRounds.RoundEquation | muggle/c/crypt/internal/internal_aes.c:315-473 | after round n, byte r of column c is the matrix row 2, 3, 1, 1, turned by r, times the substituted bytes of row j and column c + j modulo 4 after round n - 1, masked with byte r of word 4 n + c |
| AesRounds.LastEquation | muggle/c/crypt/internal/internal_aes.c:355-473 | the last round is the same without the matrix |
| Aes.Encrypt | muggle/c/crypt/internal/internal_aes.c:295-473 | the unrolled rounds are the cipher of 10, 12 or 14 rounds; any other number is rejected and changes nothing |
| Aes.Decrypt | muggle/c/crypt/internal/internal_aes.c:475-619 | the unrolled rounds are the inverse cipher; any other number is rejected and changes nothing |
| Aes.BlockInverse | muggle/c/crypt/aes.c:19-80 | decrypting an encrypted block of bytes gives it back, and encrypting a decrypted one |
| AesRounds.BlockEquation | muggle/c/crypt/aes.c:39-76 | byte r of column c of the state is byte 4 c + r of the block, going in and coming out |
| Aes.Crypt | muggle/c/crypt/aes.c:19-80 | transposes, runs the cipher and transposes back; a rejected call copies the input; input and output may coincide |
| AesKey.RconIsPower | muggle/c/crypt/internal/internal_aes.c:69-74 | the round constants are the powers of x in the field |
| AesKey.SetKey | muggle/c/crypt/aes.c:82-191 | for 128, 192 and 256 bits every word of the schedule is the one of section 5.2 of FIPS 197; other sizes, operations and modes are rejected and change nothing |
| AesWords.RoundMatrix | muggle/c/crypt/internal/internal_aes.c:135-267 | the rounds on columns packed in words, with word operations for the matrix, are the rounds on the matrix of bytes |
| AesAnswer.KnownAnswer | muggle/c/crypt/aes.c:19-191 | with the schedule of section 5.2 of FIPS 197 for the key 00 01 .. 0f the block of appendix C.1 is encrypted to the ciphertext given there, and decrypted back |
| StreamModes.Chunks | muggle/c/crypt/aes.c:273-393 | for CFB, OFB and CTR two calls in a row give the bytes and the register of one call on the joined input |
| StreamModes.RunInverse | muggle/c/crypt/aes.c:273-393 | decrypting what was encrypted from the same register gives the input back and leaves the same register, for any block function |
| StreamModes.KeystreamAt | muggle/c/crypt/aes.c:318-393 | byte i is masked with the cipher iterated on the iv (OFB) or the cipher of the counter advanced modulo its width (CTR), from any starting offset |
| StreamModes.CfbMatches | muggle/c/crypt/aes.c:273-316 | the byte loop computes CFB of section 6.3 of NIST SP 800-38A block by block, the last block cut short |
| StreamLoops.OfbBytes | muggle/c/crypt/des.c:307-343 | the loop is the OFB run, also in place; an offset out of range is rejected and changes nothing |
| StreamLoops.AesOfbBytes | muggle/c/crypt/aes.c:318-351 | the AES form is that loop on sixteen bytes; it also rejects an operation that is neither encryption nor decryption |
| StreamLoops.CfbBytes | muggle/c/crypt/aes.c:273-316 | the loop is the CFB run of its direction; in place both directions run with the feedback of encryption |
| StreamLoops.CarryIsSuccessor | muggle/c/crypt/aes.c:377-383 | two 64-bit words with a carry count modulo 2^128 |
| StreamLoops.CtrBytes | muggle/c/crypt/aes.c:353-393 | the loop is the CTR run with a 128-bit counter, also in place |
| StreamLoops.CtrBytesOneWord | muggle/c/crypt/des.c:345-381 | the DES loop is the CTR run with a 64-bit counter |
| InPlaceCfb.InPlaceExactly | muggle/c/crypt/aes.c:273-316 | in place a message comes back up to the end of the current block, and beyond it if and only if at each block boundary the encrypted registers of ciphertext and plaintext agree on the bytes still used, for every block function, register and message |
| InPlaceCfb.InPlaceSafeExactly | muggle/c/crypt/aes.c:273-316 | under any one invertible cipher every message of a length comes back in place: from the start of a block if and only if it has at most one block; from inside a block if and only if it ends there, or less than a block later with the bytes used settled by the beginning of the register |
| ChainModes.Chunks | muggle/c/crypt/aes.c:193-271 | two ECB or CBC calls on whole blocks are one call on the joined input |
| ChainModes.BlocksInverse | muggle/c/crypt/aes.c:193-271 | ECB and CBC decryption give whole blocks back and leave the same chaining value, for any block function and its inverse |
| ChainModes.EcbEquation | muggle/c/crypt/aes.c:207-217 | section 6.1 of NIST SP 800-38A: every block of the output is the block function of that block of the input |
| ChainModes.CbcEncryptEquation | muggle/c/crypt/aes.c:254-259 | section 6.2: ciphertext block i is the encryption of plaintext block i masked with ciphertext block i - 1, the first with the IV |
| ChainModes.CbcDecryptEquation | muggle/c/crypt/aes.c:260-265 | section 6.2: plaintext block i is the decryption of ciphertext block i masked with ciphertext block i - 1, the first with the IV |
| ChainModes.CbcInPlaceEquation | muggle/c/crypt/aes.c:260-265 | in one array the mask is the plaintext block before it instead |
| ChainModes.ChainIsLast | muggle/c/crypt/aes.c:258-264 | the chaining value left is the last ciphertext block, and in place the last plaintext block |
| InPlaceCbc.InPlaceExactly | muggle/c/crypt/aes.c:228-271 | in place a message comes back if and only if encryption left every block but the last unchanged, for every block function with an inverse, chaining value and message |
| InPlaceCbc.InPlaceSafeExactly | muggle/c/crypt/aes.c:228-271 | under any one invertible cipher every message of a number of blocks comes back in place if and only if that number is at most one |
| ChainLoops.EcbBlocks | muggle/c/crypt/aes.c:193-220 | the loop is the ECB run; a length that is no multiple of the block is rejected and changes nothing |
| ChainLoops.CbcBlocks | muggle/c/crypt/aes.c:228-271 | the loop is the CBC run of its direction, in place the one that chains plaintext; bad lengths and operations change nothing |
| AesModes.ChainedReturn | muggle/c/crypt/aes.c:193-271 | AES in ECB and CBC returns every message of whole blocks |
| AesModes.StreamedReturn | muggle/c/crypt/aes.c:273-393 | AES in CFB, OFB and CTR returns every message from every register |
| AesModes.CbcInPlaceExactly | muggle/c/crypt/aes.c:228-271 | the condition for one message, for AES with every key schedule |
| AesModes.InPlaceSafeExactly | muggle/c/crypt/aes.c:228-316 | under one AES key, in place is right for every message of a length: in CBC exactly up to one block, in CFB from the start of a block exactly up to one block, and the exact condition from inside a block |
| Feistel.RoundsUndone | muggle/c/crypt/des.c:114-137 | the rounds in reverse key order, between swaps, undo the rounds, for any round function and any number of rounds |
| Des.PermutationsInverse | muggle/c/crypt/internal/internal_des.c:77-155 | the final permutation undoes the initial one and the other way round, on all 64-bit blocks |
| Des.SetKey | muggle/c/crypt/des.c:33-87 | the subkeys are stored in order for encryption and mirrored for decryption |
| Des.RunRounds | muggle/c/crypt/des.c:114-127 | the sixteen iterations are the Feistel rounds |
| Des.DesCrypt | muggle/c/crypt/des.c:93-141 | permutation, rounds, one swap and the final permutation |
| Des.CryptInverse | muggle/c/crypt/des.c:93-141 | a block run with the subkeys reversed comes back |
| DesBoxes.LookUpIsTable | muggle/c/crypt/internal/internal_des.c:17-74 | a look-up is the entry of the table in the source, 64 decimal numbers per box, at the index the source computes |
| DesBoxes.RowPermutes | muggle/c/crypt/internal/internal_des.c:17-74 | every row of every box takes each value from 0 to 15 |
| DesWords.FWord | muggle/c/crypt/internal/internal_des.c:157-275 | the round function on words, with the shifts and masks of the source, is the one on bits, for every half and every subkey |
| DesWords.RoundF | muggle/c/crypt/internal/internal_des.c:226-275 | the loops of the round function, which index the decimal tables as the source does, compute it |
| DesKey.Pc1Bits | muggle/c/crypt/internal/internal_des.c:277-312 | the two halves are the columns of the key read upwards, in closed form |
| DesKey.AfterBits | muggle/c/crypt/des.c:57-75 | after n rounds bit j of either half is bit j - T(n) modulo 28 of the half that PC-1 made, with T = 1, 2, 4, 6, 8, 10, 12, 14, 15, 17, 19, 21, 23, 25, 27, 28 |
| DesKey.AfterAll | muggle/c/crypt/des.c:57-75 | after sixteen rounds the 28 bits of both halves are back |
| DesKey.SubkeyBits | muggle/c/crypt/des.c:33-87 | every bit of every subkey is the key bit that PC-1, the turns and PC-2 name, and at the shared position one or the other |
| DesKeyWords.Pc2Word | muggle/c/crypt/internal/internal_des.c:314-340 | PC-2 on words, as the source moves the bits, is PC-2 on bits |
| DesBlockWords.SubkeysWord | muggle/c/crypt/des.c:33-87 | the key schedule on words is the one on bits |
| DesBlockWords.CryptWord | muggle/c/crypt/des.c:93-141 | the block function on words, permutations included, is the one on bits |
| DesAnswer.KnownAnswer | muggle/c/crypt/des.c:33-141 | with the first key and plaintext of the unit test, key schedule and sixteen rounds give 59964ae7f960286f, which is not the ciphertext of FIPS 46-3 |
| DesKey.Pc2Exactly | muggle/c/crypt/internal/internal_des.c:314-340 | the subkey is the one of the PC-2 table in the source if and only if the four bits that share a position with their neighbour are clear |
| DesBytes.DesReturns | muggle/c/crypt/des.c:33-256 | DES in ECB and CBC, with its own rounds and subkeys, returns every message of whole blocks, for every key |
| Tdes.TdesCrypt | muggle/c/crypt/tdes.c:23-76 | the three loops are one run of 48 rounds inside one pair of permutations |
| Tdes.Crypt3Inverse | muggle/c/crypt/tdes.c:23-125 | with the key order chosen per operation, decryption undoes encryption for every three keys |
| Tdes.EncryptContexts | muggle/c/crypt/tdes.c:103-113 | for encryption the outer contexts hold the first and the third schedule, and the middle one undoes a block of the second |
| Tdes.DecryptContexts | muggle/c/crypt/tdes.c:114-124 | for decryption the outer contexts undo a block of the third and of the first schedule, and the middle one holds the second |
| TdesDeparture.NotTriple | muggle/c/crypt/tdes.c:23-125 | with a middle key of zeros, whatever its parity bits, and every first and last key, there is a block whose encryption is not that of three DES blocks in a row |
| TdesDeparture.EqualKeys | muggle/c/crypt/tdes.c:23-125 | with three equal keys of zeros a given block is encrypted neither as three DES blocks in a row nor as one |
| DesBytes.TripleIsCrypt3 | muggle/c/crypt/tdes.c:23-125 | the block function on bytes is TDES between packing and unpacking the bits |
| DesBytes.TdesReturns | muggle/c/crypt/tdes.c:78-231 | TDES in ECB and CBC returns every message of whole blocks, for every three keys |

## Left out

- Weak memory orders: every shared access is sequentially consistent.
- TsPool.RunPartitions: cursors do not wrap at 2^32, and runs with the harmful spurious failure are excluded (`TsPool.PartitionedExactly` says what they do).
- RingBuffer.ReadersSeeTicketOrder: cursors do not wrap, a reader acts only while writers are less than a turn ahead, and the mutex and single-writer modes are not modelled.
- RingBuffer.NoLostWake: a wake-up wakes every sleeper, which in the modes with a single wake-up is the only one.
- Channel.ReaderGetsPrefix: the mutex and futex writers are one lock; the single-writer mode is the case of one writer.
- SowrPool.SowrPool.Alloc: calls of the two threads interleave as whole calls; each has one shared access that matters.
- BytesBuffer.BytesBuffer.constructor: failed allocation and negative sizes; the methods are for a capacity of at least one, and `BytesBuffer.NoCapacity` is about none.
- MemoryPool.MemoryPool.constructor: failed allocation and a block size of zero, which the source refuses.
- MemoryPool.MemoryPool.Alloc: on a pool that growth left with a free index behind, only the effects in `MemoryPool.EmptyGrowthRepeats` are stated.
- AvlTree.AvlTree.Insert: the node pool is the `spare` address handed in; clear, destroy and the free callbacks are not modelled.
- Heap.Heap.Insert: allocation success is a parameter; find, clear, destroy and the free callbacks are not modelled.
- Heap.Heap.Init: a null comparison, and capacities whose byte count wraps, from 2^60 on.
- HeapSort.Sort: what a refused growth leaves of 2^32 - 1 or more elements.
- MergeSort.Sort: a count of zero, from which the source subtracts one unsigned, so that the recursion leaves the array.
- QuickSort.Sort: a count of zero, for the same reason.
- AesKey.SetKey: the host is little-endian, as the byte moves in the word rotation assume.
- StreamLoops.OfbBytes: null pointers and the mode stored in the context are not modelled in any mode.
- DesAnswer.KnownAnswer: one key and one block; on which keys and blocks the code agrees with FIPS 46-3 is not characterised.
- TdesDeparture.NotTriple: one direction only; that other middle keys depart too would take an argument about sixteen keyed DES rounds.
- The OpenSSL-derived AES and DES paths, and the stream modes of DES and TDES as separate members: they repeat the ones over any block function.
- Array list, stack, queue, linked list, trie, hash table, parity, strings, double buffer: easier members of the same families.
- Sockets, event loops, logging, operating-system wrappers and time: input, output and foreign calls.
