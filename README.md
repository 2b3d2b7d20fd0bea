# SynestiaOS kernel bookkeeping in Dafny

A model, with proofs, of two pieces of the SynestiaOS kernel.

## Buddy page allocator

The model covers `SourceCode/Kernel/src/buddy.c`.

**Page records.** Physical pages are described by page records. Each record holds `vaddr`, `flags`, `order` and `counter`. Each record also holds an intrusive list link.

**Free lists.** There are nine free lists, one per order 0 to 8. Each is a circular doubly-linked list threaded through the records' links, with the head as a sentinel.

**Representation.** Class `Buddy.BuddyAllocator` holds the records:
- the link fields are the arrays `next` and `prev`, where node `pageNum + k` is the head of list `k`;
- each remaining record field is its own array;
- ghost views say which records each list holds and in which order (`lists`), which records head blocks (`heads`), and which list each record is on (`owner`).

**Buddy invariant.** `Valid` combines two predicates:
- `FreeLists.LinksOk`: the lists are sound circular lists;
- `BuddyLayout.BuddyOk`: list `k` is a sequence of whole blocks of `2^k` consecutive records, each block head has order `k`, and every free record is AVAILABLE.

**Operations modelled.**
- The list primitives.
- `init_page_buddy` and `init_page_map`. The loop of `init_page_map` never advances its record pointer, so every pass rewrites the first record; `InitPageMapAsWritten` models that loop exactly. The rest of the model files record `i` on pass `i`, as the loop's comment intends, for any group mask: with the mask the source uses (511) and with the corrected mask (255). See Findings.
- `get_pages_from_list`: it scans upward for a non-empty list and cuts out that list's first block. It then splits the block, filing the lower half at each step and keeping the upper half.
- `alloc_pages`: it sets DIRTY on every record of the handed-out block.

The pure lemmas in `rings.dfy`, `freelists.dfy`, `blocks.dfy` and `layout.dfy` work on snapshots of the arrays. The methods use them to show that every operation keeps the invariant. For each operation, the resulting lists, heads, orders and flags are given in closed form.

## PIDs and thread control blocks

The model covers `SourceCode/Kernel/src/thread.c`: the PID bitmap (`pid.dfy`) and thread control blocks (`thread.dfy`).

**PID bitmap.** The bitmap is 2048 32-bit words; PID `p` is bit `p % 32` of word `p / 32`, and only the first 64 words are scanned.
- Words are integers in `0 .. 2^32 - 1`, and bits are binary digits.
- Allocation claims the lowest clear bit. It is proved equal to the reference function `LowestFree`.
- Free toggles the bit.

**Thread creation.** It is modelled field by field:
- the stack gets the sixteen-word initial register frame;
- the record gets its initial values;
- the lowest free PID is claimed.

Also modelled: idle threads, kill, opening a file into the descriptor table, and copying a thread.

**Collaborators.** These are small stand-ins:
- a kernel stack is a sequence of words with a freed flag;
- a kernel vector is a sequence of descriptors with a capacity;
- the kernel heap is an allocation count;
- whether `kstack_allocate` returns a stack is a parameter, and so is the timer reading.

## Model

| member | source | states |
|---|---|---|
| Buddy.BuddyAllocator.InitListHead | SourceCode/Kernel/src/buddy.c:15-18 | node `x` links to itself both ways and no other link changes |
| Buddy.BuddyAllocator.ListAddBetween | SourceCode/Kernel/src/buddy.c:20-27 | exactly the four link stores that splice `x` between `p` and `n` |
| Buddy.BuddyAllocator.ListAddTail | SourceCode/Kernel/src/buddy.c:33-35 | `x` is spliced before the head of list `k`, the list view becomes the old list plus `[x]`, and `x` is now on list `k` |
| Rings.AddTailSplice | SourceCode/Kernel/src/buddy.c:33-35 | on a sound ring, the links after `list_add_tail` form the ring `s + [x]`: the new node is last and the others keep their order |
| FreeLists.AddTailOk | SourceCode/Kernel/src/buddy.c:33-35 | `list_add_tail` of a record on no list keeps all nine lists sound, appends it to list `k` and gives it to list `k` |
| Buddy.BuddyAllocator.ListDel | SourceCode/Kernel/src/buddy.c:37-44 | the neighbours of `x` are linked to each other, `x`'s own links are untouched, and `x` leaves its list view |
| Rings.DeleteSplice | SourceCode/Kernel/src/buddy.c:37-44 | a member's links are its ring neighbours, and bridging over it leaves a ring of the other members in their order |
| FreeLists.DelOk | SourceCode/Kernel/src/buddy.c:37-44 | `list_del` of a member of list `k` keeps every list sound and puts the record on no list |
| Buddy.BuddyAllocator.ListAddChainTail | SourceCode/Kernel/src/buddy.c:58-63 | exactly the four link stores of the chain splice, with the chain `c` appended to the list view and given to it |
| Rings.AddChainTailSplice | SourceCode/Kernel/src/buddy.c:58-63 | on a sound ring and a linked chain outside it, the links after `list_add_chain_tail` form the ring `s + c`, so the chain keeps its internal order at the end |
| FreeLists.AddChainTailOk | SourceCode/Kernel/src/buddy.c:58-63 | appending a linked chain of records on no list keeps all lists sound and gives the chain to list `k` |
| Buddy.BuddyAllocator.ListEmpty | SourceCode/Kernel/src/buddy.c:65-67 | the head points to itself exactly when list `k` is empty |
| FreeLists.EmptyIff | SourceCode/Kernel/src/buddy.c:65-67 | on sound lists, `next[head] == head` if and only if the list view is empty |
| Buddy.BuddyAllocator.InitPageBuddy | SourceCode/Kernel/src/buddy.c:111-116 | all nine heads point to themselves, every list is empty (`ListEmpty` holds for each), no record is on a list, no record link changes, and the invariant holds |
| Buddy.PageAddress | SourceCode/Kernel/src/buddy.c:122 | the address of record `i` fits in 32 bits, and equals `pagingStart + i * 4096` whenever that sum fits |
| BuddyLayout.FullGroupsEnd | SourceCode/Kernel/src/buddy.c:126 | `n & ~mask` for a mask `2^m - 1`: a multiple of `mask + 1`, at most `n`, leaving at most `mask` records |
| Buddy.BuddyAllocator.FileRecord | SourceCode/Kernel/src/buddy.c:121-137 | one loop pass for the group mask `mask`, with `pg` advanced to record `i`: it sets record `i`'s fields, self-links it, and appends it to list 8 inside the groups or to list 0 past them; the order is 8 when `i` starts a group (`(i & mask) == 0`), -1 for the rest of a group, 0 past the groups |
| BuddyLayout.FileStep | SourceCode/Kernel/src/buddy.c:125-137 | one loop pass, for any group mask, keeps the filing state: the lists hold exactly the records filed so far, on the right list |
| BuddyLayout.FileLinkOk | SourceCode/Kernel/src/buddy.c:125-136 | a self-link followed by `list_add_tail` keeps the lists sound |
| Buddy.BuddyAllocator.FileRecords | SourceCode/Kernel/src/buddy.c:121-138 | after the loop over all records, with `pg` advanced on every pass and for any group mask, every record is filed |
| Buddy.BuddyAllocator.InitPageMapWith | SourceCode/Kernel/src/buddy.c:118-139 | for the group mask `mask`, with `pg` advanced on every pass: every record has its address, AVAILABLE and counter 0; the order is 8, -1 or 0 by its group; list 8 is records `0 .. g-1` in order, with `g` as `KERNEL_PAGE_NUM & ~mask`; list 0 is the remaining records in order; the other lists are empty and sound |
| Buddy.BuddyAllocator.InitPageMap | SourceCode/Kernel/src/buddy.c:118-139 | the corrected `init_page_map`, with mask 255 and `pg` advanced on every pass: the layout of `InitPageMapWith`, with block heads at the multiples of 256 on list 8 and every record on list 0 a head of its own; the buddy invariant holds |
| Buddy.BuddyAllocator.InitPageMapSourceMask | SourceCode/Kernel/src/buddy.c:118-139 | `init_page_map` with the source's mask 511 and `pg` advanced on every pass: the layout of `InitPageMapWith` for groups of 512, and with 512 records or more no choice of block heads satisfies the buddy invariant |
| Buddy.BuddyAllocator.InitPageMapAsWritten | SourceCode/Kernel/src/buddy.c:118-139 | `init_page_map` exactly as written, `pg` never advanced: record 0 ends with the address, AVAILABLE, counter 0 and order of the last pass; records `1 .. KERNEL_PAGE_NUM-1` keep every field and link; each head a pass used links to record 0 both ways, the other heads to themselves; with two records or more, the list of the first pass is no ring |
| Buddy.BuddyAllocator.RewriteFirst | SourceCode/Kernel/src/buddy.c:121-137 | one pass of the loop as written: it rewrites record 0 with pass `i`'s fields and appends it to list 8 or list 0, and leaves records `1 ..` untouched |
| Buddy.BuddyAllocator.AddFirstRecord | SourceCode/Kernel/src/buddy.c:125-135 | `INIT_LIST_HEAD` then `list_add_tail` of record 0 onto a list that is empty or holds only record 0: the head then links to record 0 both ways, record 0 links to the head if the list was empty and to itself otherwise, and no other link changes |
| BuddyLayout.AsWrittenNoRing | SourceCode/Kernel/src/buddy.c:120-138 | the links the as-written loop leaves, with two records or more, make the list of the first pass (list 8 with whole groups, else list 0) no ring of any records |
| BuddyLayout.InitListsAt | SourceCode/Kernel/src/buddy.c:126-137 | appending record by record yields, in closed form, list 8 as the run of grouped records and list 0 as the run of the rest |
| BuddyLayout.InitHeadsAt | SourceCode/Kernel/src/buddy.c:126-137 | the records given order 8 or 0 in closed form: the multiples of `mask + 1` inside the groups, and every ungrouped record |
| BuddyLayout.InitDone | SourceCode/Kernel/src/buddy.c:126-137 | once all records are filed with a group mask, the lists and the records given order 8 or 0 are as `InitPageMapWith` promises |
| BuddyBlocks.TopGroups | SourceCode/Kernel/src/buddy.c:126-132 | the blocks headed by 0, 256, 512, ... of 256 records each cover records `0 .. 256m-1` in order |
| BuddyBlocks.SinglePages | SourceCode/Kernel/src/buddy.c:133-137 | a list of order-0 blocks is the list of its heads |
| BuddyLayout.InitBuddyOk | SourceCode/Kernel/src/buddy.c:118-139 | the filed lists, with the given orders and AVAILABLE flags, satisfy the buddy invariant |
| BuddyLayout.SourceMaskNotBuddy | SourceCode/Kernel/src/buddy.c:126-132 | with `n >= 512` records, the orders of mask 511 and `pg` advanced on every pass, the lists filed break the buddy invariant whatever heads are chosen: the second order-8 block of list 8 starts at record 256, which has order -1 |
| Buddy.FirstNonEmpty | SourceCode/Kernel/src/buddy.c:149-160 | the scan stops at the lowest non-empty list at or above `from`, every list it skips is empty, and it runs off the end exactly when all of them are empty |
| Buddy.BuddyAllocator.DetachFirstBlock | SourceCode/Kernel/src/buddy.c:154-157 | the head is linked to the record after the first block, and the block's `2^k` records leave list `k` and its heads |
| Rings.DropPrefixSplice | SourceCode/Kernel/src/buddy.c:154-157 | re-pointing the sentinel past the `m`-th member leaves a ring of the rest, and the cut-out members stay a linked chain |
| FreeLists.DetachOk | SourceCode/Kernel/src/buddy.c:154-157 | cutting out the first `m` members keeps the lists sound, and the cut members become a chain on no list |
| BuddyLayout.DetachState | SourceCode/Kernel/src/buddy.c:154-157 | the cut-out of the first block is the starting state of the split loop |
| Buddy.BuddyAllocator.SplitOff | SourceCode/Kernel/src/buddy.c:168-173 | one split pass: the lower half's head gets order `s-1` and the lower half is appended as a chain to list `s-1`, a new block there; the upper half is returned |
| Buddy.BuddyAllocator.SplitDown | SourceCode/Kernel/src/buddy.c:165-174 | the loop from order `k` down to `order` keeps the split state and ends at record `h + 2^k - 2^order` |
| BuddyLayout.SplitStepState | SourceCode/Kernel/src/buddy.c:165-174 | one pass moves the split state from order `s` to `s-1` |
| FreeLists.SplitLinksOk | SourceCode/Kernel/src/buddy.c:168-173 | appending the lower half of the working chain keeps the lists sound and leaves the upper half as a chain on no list |
| FreeLists.SplitChainOk | SourceCode/Kernel/src/buddy.c:168-173 | the lower half is a linked chain of free-standing records, and after its append the upper half still is one |
| FreeLists.SplitAppendOk | SourceCode/Kernel/src/buddy.c:173 | appending the lower half yields sound lists with its records on list `k` |
| BuddyLayout.SplitOrdersStep | SourceCode/Kernel/src/buddy.c:172 | giving the new lower half's head order `s-1` moves the order bookkeeping from `s` to `s-1` |
| BuddyBlocks.SplitPartition | SourceCode/Kernel/src/buddy.c:165-174 | the filed halves followed by the kept block are exactly the records of the block taken, in order |
| BuddyBlocks.SplitHalfAt | SourceCode/Kernel/src/buddy.c:165-174 | the half filed at step `j` starts `2^k - 2^(j+1)` records into the block and holds `2^j` records |
| BuddyLayout.SplitFiledHalves | SourceCode/Kernel/src/buddy.c:165-174 | list `j`, for `order <= j < k`, gains exactly the step-`j` half, and the halves with the kept block partition the taken block |
| BuddyLayout.ListsAfterSplitAt | SourceCode/Kernel/src/buddy.c:154-174 | after the split, list `k` has lost its first block, each list between `order` and `k-1` has its half appended, and the others are unchanged |
| BuddyLayout.HeadsAfterSplitAt | SourceCode/Kernel/src/buddy.c:154-174 | after the split, each list between `order` and `k-1` has one new head and list `k` has lost its first one |
| Buddy.BuddyAllocator.MarkTaken | SourceCode/Kernel/src/buddy.c:176-177 | the kept head gets BUSY set and order `order`, and nothing else changes |
| BuddyLayout.FinishState | SourceCode/Kernel/src/buddy.c:165-179 | at the end of the split, marking the head restores the buddy invariant, and the outcome is the one `TakenFrom` describes |
| BuddyLayout.AllocKeepsBuddy | SourceCode/Kernel/src/buddy.c:149-179 | taking the first block, filing its halves and marking the kept head preserves the buddy invariant |
| Buddy.BuddyAllocator.TakeBlock | SourceCode/Kernel/src/buddy.c:153-179 | from a non-empty list `k`: the invariant is kept and the result is the top block of order `order` of its first block, as `TakenFrom` states |
| Buddy.BuddyAllocator.GetPagesFromList | SourceCode/Kernel/src/buddy.c:142-180 | null exactly when every list from `order` to 8 is empty, and then nothing changes; otherwise the first block of the lowest non-empty list is split as `TakenFrom` states; the invariant is kept |
| Buddy.BuddyAllocator.MarkDirty | SourceCode/Kernel/src/buddy.c:187-189 | DIRTY is set on records `pg .. pg+m-1` and every other flag is kept |
| BuddyLayout.DirtyKeepsBuddy | SourceCode/Kernel/src/buddy.c:187-189 | setting DIRTY on records on no list keeps the buddy invariant |
| BuddyLayout.AllocatedFlags | SourceCode/Kernel/src/buddy.c:176-189 | after `alloc_pages` the head is BUSY and DIRTY, the rest of the block is DIRTY, and every other record keeps its flags |
| Buddy.BuddyAllocator.AllocPages | SourceCode/Kernel/src/buddy.c:182-192 | fails, changing nothing, exactly when every list from `order` up is empty; otherwise the lists are as after `get_pages_from_list` and DIRTY is set on exactly the `2^order` records of the block |
| PidBitmap.Or | SourceCode/Kernel/src/thread.c:24-25 | `w \| (1 << j)` sets bit `j` and no other, and stays a 32-bit word |
| PidBitmap.Xor | SourceCode/Kernel/src/thread.c:36 | `w ^ (1 << j)` flips bit `j` and no other, and stays a 32-bit word |
| PidBitmap.LowestFree | SourceCode/Kernel/src/thread.c:20-31 | a free PID in range with every lower PID in use; `None` exactly when all 2048 are in use |
| PidBitmap.PidMap.constructor | SourceCode/Kernel/src/thread.c:18 | 2048 words, all zero |
| PidBitmap.PidMap.AllocPid | SourceCode/Kernel/src/thread.c:20-31 | returns the lowest free PID and sets exactly its bit; with none free, returns `None` and leaves the map unchanged |
| PidBitmap.PidMap.FreePid | SourceCode/Kernel/src/thread.c:33-37 | word `pid / 32` has bit `pid % 32` flipped and nothing else changes |
| PidBitmap.ClaimOnly | SourceCode/Kernel/src/thread.c:25 | after a claim, `p` is in use and every other PID is as before |
| PidBitmap.ToggleOnly | SourceCode/Kernel/src/thread.c:36 | after a free, `p`'s state is flipped and every other PID is as before |
| PidBitmap.FreeUndoesClaim | SourceCode/Kernel/src/thread.c:20-37 | claiming a free PID and then freeing it restores the bitmap word for word |
| PidBitmap.ClaimUndoesFree | SourceCode/Kernel/src/thread.c:20-37 | freeing a PID in use clears it, and claiming it again restores the bitmap |
| PidBitmap.FreedIsCandidate | SourceCode/Kernel/src/thread.c:20-37 | after a PID in use is freed, the next allocation returns at most that PID, and returns exactly that PID if and only if all lower PIDs are in use |
| PidBitmap.FullWord | SourceCode/Kernel/src/thread.c:22 | a word equal to `MAX_UINT_32` has all 32 bits set, so skipping it skips no free PID |
| PidBitmap.AddBit | SourceCode/Kernel/src/thread.c:25 | adding `2^j` to a number with bit `j` clear sets that bit and keeps every other bit |
| PidBitmap.ClearBitFits | SourceCode/Kernel/src/thread.c:25 | setting a clear bit below 32 keeps a word below 2^32 |
| Threads.InitialFrame | SourceCode/Kernel/src/thread.c:116-131 | sixteen words: `entry` twice, the fill words of R12 down to R01 (each the register number's two decimal digits in all four bytes), `arg`, then `0x600001d3` |
| Threads.KernelStack.PushInitialFrame | SourceCode/Kernel/src/thread.c:114-131 | after the clear and the sixteen pushes, the stack holds exactly the initial frame |
| Threads.Thread.FillSchedule | SourceCode/Kernel/src/thread.c:134-144 | magic, INITIAL status, the stack, priority, both CPUs `INVALID_CPU`, entry, zero runtimes and the start time |
| Threads.Thread.FillIdentity | SourceCode/Kernel/src/thread.c:146-178 | null parent, PID, name, argument, zeroed address-space fields, null list and tree links, a red tree node and the descriptor table |
| Threads.NewRecord | SourceCode/Kernel/src/thread.c:133-178 | a fresh record with every field `thread_create` stores, and a fresh empty descriptor table |
| Threads.ThreadSystem.CreateThread | SourceCode/Kernel/src/thread.c:109-185 | with no stack: null, with the heap and PID map untouched; otherwise a fresh thread over a fresh stack holding the initial frame, with all initial fields, the lowest free PID claimed, and one heap allocation |
| Threads.DecimalString | SourceCode/Kernel/src/thread.c:200-201 | a non-empty string of decimal digits with no leading zero |
| Threads.DecimalRoundTrip | SourceCode/Kernel/src/thread.c:200-201 | the decimal name reads back as the CPU number |
| Threads.DecimalLength | SourceCode/Kernel/src/thread.c:200-201 | a number below `10^k` has at most `k` digits |
| Threads.ThreadSystem.CreateIdleThread | SourceCode/Kernel/src/thread.c:194-205 | PID 0, affinity `cpuNum`, `IDLE_PRIORITY`, the idle routine with argument `cpuNum`, and the decimal CPU number as name (fewer than ten characters); every other field as `thread_create` stores it, the initial stack frame and a fresh empty descriptor table; the PID drawn inside stays claimed |
| Threads.ThreadSystem.Kill | SourceCode/Kernel/src/thread.c:69-74 | returns OK, flips exactly the thread's PID bit, and frees its stack |
| Threads.CreateThenKill | SourceCode/Kernel/src/thread.c:69-74 | killing a just-created thread gives back the bitmap from before its creation |
| Threads.ThreadSystem.OpenFile | SourceCode/Kernel/src/thread.c:76-89 | one heap allocation; on a successful add the descriptor `(entry, pos 0)` is last and its index, the length minus one, is returned; otherwise 0 is returned and the table is unchanged |
| Threads.ThreadSystem.Copy | SourceCode/Kernel/src/thread.c:91-107 | without a stack: null, with the heap count and the PID bitmap unchanged; otherwise a fresh thread with every field `thread_create` stores (the original's name, entry, argument and priority, magic, INITIAL status, invalid CPUs, zero runtimes, start time `now`, zeroed address space, null links, red tree node), the initial stack frame, a fresh empty descriptor table, the lowest free PID claimed, and one heap allocation |

## Left out

- `SourceCode/Board/RaspberryPi/src/aux.c` is not part of this model: it is UART and GPIO register I/O.
- `init_buddy_alloc` (`buddy.c:202-214`) is diagnostics plus link-time symbols. `KERNEL_PAGE_NUM` and `KERNEL_PAGING_START` are the parameters `pageNum` and `pagingStart` of `BuddyAllocator`.
- `get_free_pages` (`buddy.c:194-200`) is not modelled. It passes its arguments to `alloc_pages` swapped (`buddy.c:197`).
- There is no free or merge routine in the allocator, and the model has none either.
- The following are not modelled because the core does not use them: `list_add`, `list_remove_chain`, `list_add_chain`, `PREV_BUDDY_START`, the `cachep` field, and the PROTECT and IN_CACHE flags.
- Buddy.BuddyAllocator.GetPagesFromList: `order` is a natural number. A negative order in the C code indexes the list heads out of bounds. An order of 9 or more returns null, as in the source.
- Buddy.BuddyAllocator.AllocPages: the `flag` argument is accepted and unused, as in the source. `1 << order` is taken as `2^order`, since the order is below 9 whenever a block is returned.
- Buddy.BuddyAllocator.InitPageMap uses the group mask 255, the block size of list 8, not the mask 511 of `buddy.c:126-127`. `InitPageMapSourceMask` models the source's mask; see the first Findings row. The rest of the model starts from the corrected layout.
- BuddyLayout.FullGroupsEnd and Buddy.BuddyAllocator.FileRecord take the mask as a parameter: they model `buddy.c:126-127` exactly when it is 511, and the corrected grouping when it is 255. The test `(i & mask) == 0` is written `i % (mask + 1) == 0`, which agrees with it for both masks, each of the form `2^m - 1`.
- Buddy.BuddyAllocator.FileRecord: pass `i` writes record `i`, that is `pg` is advanced on every pass, where `buddy.c:120` sets it once and the loop never advances it. `InitPageMapAsWritten` models the loop as written; see the second Findings row.
- Buddy.BuddyAllocator.FileRecords: advances `pg` on every pass, as `FileRecord` does.
- Buddy.BuddyAllocator.InitPageMapWith: advances `pg` on every pass, as `FileRecord` does.
- Buddy.BuddyAllocator.InitPageMap: advances `pg` on every pass, as `FileRecord` does; this is the corrected loop of the second Findings row.
- Buddy.BuddyAllocator.InitPageMapSourceMask: advances `pg` on every pass, as `FileRecord` does, so that the mask can be judged on its own.
- BuddyLayout.SourceMaskNotBuddy: its lists are those filed with `pg` advanced. The loop as written leaves no lists at all, which `AsWrittenNoRing` states.
- `get_pages_from_list` files the lower half at each split step and keeps the upper half (`buddy.c:168-173`).
- `idle_thread_routine` is not modelled: it spins on `wfi`. Its address is the `idleRoutine` parameter.
- Logging (`LogInfo`, `LogError`) is not modelled.
- The `operations` function-pointer tables are not modelled. Their entries are always the defaults, which the model calls directly.
- `thread_default_suspend`, `resume`, `sleep`, `detach`, `join` and `exit`, and `thread_reschedule`, are constant functions returning OK. They have no contract.
- The clone-flag branches of `thread_default_copy` are empty. `cloneFlags` and `heapStart` are unused.
- The values of `THREAD_MAGIC` and `IDLE_PRIORITY` come from `thread.h`, which is not part of this model. They are the constructor parameters `threadMagic` and `idlePriority`.
- `kstack_allocate`, `kernelHeap.alloc`, `kvector_allocate`, `kvector_add` and `ktimer_sys_runtime` are modelled as follows:
  - whether a stack is available is a parameter;
  - the heap only counts allocations and never fails, since the source never checks its result;
  - a vector refuses an add once it holds `tableCapacity` descriptors;
  - the timer reading is a parameter.
- The `prev` and `next` links of a `FileDescriptor` node are not modelled.
- `strcpy` into the fixed-size `name` buffer is modelled as a plain copy. The buffer size is in `thread.h`.
- Threads.ThreadSystem.CreateThread requires a free PID whenever a stack is available. With none free, `thread_alloc_pid` returns no value and the source stores an undefined PID.
- Threads.ThreadSystem.CreateThread draws the PID before storing the record's fields, rather than among them. `cpuAffinity` keeps whatever value it had, as `thread_create` does not write it.
- Threads.ThreadSystem.CreateIdleThread requires a stack and `cpuNum < 10^9`:
  - the source uses the result of `thread_create` without a null check;
  - `itoa` writes into a ten-byte buffer, which holds at most nine digits and the terminator.
- Threads.ThreadSystem.Kill requires `pid / 32 < 2048`, the bounds of `pidMap`. The thread record and its descriptor table stay allocated, as in the source.

## Findings

| source | as written | input that shows it | evidently intended | confidence | as-written member | corrected member |
|---|---|---|---|---|---|---|
| SourceCode/Kernel/src/buddy.c:126-132 | even with `pg` advanced on every pass (second row), records are grouped, and block heads chosen, with the mask `PAGE_NUM_FOR_MAX_BUDDY = (1 << 9) - 1`, so groups are 512 records, yet they are filed on list 8, whose blocks are `2^8 = 256` records (`get_pages_from_list` cuts 256 records from it) | any `KERNEL_PAGE_NUM` of 512 or more, e.g. 512: list 8 holds records 0..511, which are two order-8 blocks, but record 256, the head of the second, gets order -1; with 768 records, records 512..767 also go to list 0 as single pages although they form a full order-8 block | groups of 256 records (mask 255), each starting with a head of order 8 | medium, not executed | BuddyLayout.SourceMaskNotBuddy | Buddy.BuddyAllocator.InitPageMap |
| SourceCode/Kernel/src/buddy.c:120-138 | `pg` is set to the first record once and never advanced, so every pass of the loop rewrites record 0 and appends it again | `KERNEL_PAGE_NUM` = 2: record 0 ends with the second page's address and record 1 is never written; list 0's head ends linked to record 0 both ways while record 0 links to itself both ways, so the walk from the head never comes back to it and list 0 is no circular list | advance `pg` on every pass, as the comment at `buddy.c:122` says each record follows the previous one | high, not executed | Buddy.BuddyAllocator.InitPageMapAsWritten | Buddy.BuddyAllocator.InitPageMap |
