# Verified models of the kernel's allocators, paging, scheduler and console

This project models the memory stack of a small i386 kernel, and a few components around it, and proves what each
promises over all inputs and all runs. `dafny verify dfyconfig.toml` checks all of it.

- `HeapLayout`, `HeapLists`, `Liballoc`: the kernel heap. Regions from the system (majors) hold address-sorted
  allocations (minors). `HeapLayout` is the arithmetic of blocks, gaps and alignment on values, `HeapLists` the headers
  as they lie in memory, at addresses, with their links, and `Liballoc` the operations that change them in place.
- `Words`, `Bitmaps`, `Pmm`: the physical frame allocator, four levels of bitmaps whose bits sum up pairs of bits of
  the level below, from mask arithmetic on 32-bit words to multi-level search and release.
- `Paging`, `Unmapping`, `Spaces`: two-level i386 paging (Intel SDM volume 3A, section 4.3) for several address spaces
  that share the tables of the kernel's half; it refines a plain map from virtual pages to frames and attributes. `Paging`
  is the state and mapping, `Unmapping` what unmapping does to it, `Spaces` the manager and the chain of spaces.
- `BootMap`: mapping memory before paging is on, with a bound that the loop itself moves, the projected size of the
  frame bitmaps, and removal of the identity mapping. Its result is a valid start state of `Spaces`.
- `VmmAlloc`: allocation of virtual memory in chunks of frames, on the frame allocator of `Pmm` and the address spaces of
  `Spaces`, whose tables take frames from the same allocator.
- `IdAlloc`, `DList`, `Scheduler`: the ID allocator, the intrusive list and the round-robin scheduler.
- `Ansi`, `VgaText`: the terminal's control sequence machine with a printer it inverts, and the scrolling screen.
- `Options`, `Sequences`: what several of these share.

An object that the kernel updates in place is a class whose methods are proved against functions of its abstract state;
what is promised over whole runs are invariants of all its methods and lemmas about those functions. Answers of code
outside the model (memory from the system, storage for page tables, ticks, whether the screen has room) are parameters.
Sizes, places, flags and colours are also stated in plain numbers, apart from the functions that compute them.

## Where the code departs from its purpose

The code is modelled as it is. Where it falls short, the exact condition under which it does what it is for is proved,
for all inputs; a switch (`Build` in `Bitmaps`, `UnmapBuild` in `Unmapping`, `physical` in `BootMap`, `failure` in
`VmmAlloc`) also gives the form that the surrounding code intends, of which the full property is proved.

- Frame allocator: masks of `count + 1` ones (kernel/common/src/mm/pmm.c:79 and :84), the run counter surviving a
  skipped word (:107-114), the reservation beyond memory clamped away (:45 with :57), and calls that cover no frame
  (:55-88). `Pmm.WrittenTakes` and `Pmm.ClampedTail` put these together.
- Memory above 4G: the address of a block found there is a product of 32-bit numbers (kernel/common/src/mm/pmm.c:119), so
  frames below 4G are claimed and returned instead. `Pmm.WrittenAnywhere` is the condition, `Pmm.NoneStrays` says that
  memory of up to 4G is not affected, and `Pmm.FrameAllocator.FrameAbove4G` is a run that goes wrong.
- The space of the frame bitmaps is reserved by its virtual address (kernel/common/src/mm/pmm.c:28 and :46, with
  kernel/targets/i386-pc-multiboot/src/pmm.c:98), so nothing is reserved for it in memory of up to 3G, and frames that
  have nothing to do with it in larger memory. `BootMap.OwnSpace` is the condition under which its frames are taken all
  the same, and `BootMap.BitmapHandedOut` a run in which the first frame handed out is that of the lowest bitmap.
- Unmapping: a shift by 22 instead of 12 (kernel/cpu/i386/src/vmm_ops.c:251), use counts that go down for entries
  not in use (:291-293), and the address after the last 4M page, which wraps to zero (:230). `Unmapping.UnmapExact` is
  the condition for whole ranges. The count of bytes done (:217-219) wraps to zero for a range from page 0 that is done up to
  the end of the address space, so that the loop starts over.
- Mapping at unaligned addresses can fall short of the end of the range by a page (kernel/cpu/i386/src/vmm_ops.c:108-112).
- A new address space loses its link to the previous one (kernel/cpu/i386/src/vmm_ops.c:43 after :40), so only the
  kernel's space and the newest one are kept in step, and a mapping through an older one spreads what it still has.
- `vmm_get_paddr` sign-extends addresses of 4M pages from 2G on (kernel/cpu/i386/src/vmm_ops.c:376).
- Allocation failure: the frame allocator returns the largest 32-bit number and callers test for the largest 64-bit one
  (kernel/common/src/mm/pmm.c:127, kernel/common/src/mm/vmm.c:50 and :62).
- `vmm_alloc` ignores how much `vmm_map` has mapped (kernel/common/src/mm/vmm.c:52 and :75), and `vmm_map` stops when a
  table cannot be had (kernel/cpu/i386/src/vmm_ops.c:149): the range is then reported as allocated, or a frame is lost.
- A growing `realloc` that cannot get memory copies to address 0 and frees the old allocation
  (libc/src/stdlib/liballoc_1_1.c:861-863); the ID allocator grows its bitmap with it
  (kernel/common/src/algo/idalloc.c:63). The model has the copy as a store. In a space with no page at address 0, such as the kernel's once
  `BootMap.BootSpace.DropIdentity` is done, the copy faults before anything is freed, which is no better for the caller.
- Position -2 of `dllist_insert` is two before the end, not one as its header says
  (kernel/common/include/algo/dllist.h:23).

## Model

| member | source | states |
|---|---|---|
| HeapLayout.UnalignInvertsAlign | libc/src/stdlib/liballoc_1_1.c:25-49 | Unaligning gives the raw address back for every address; the aligned one is the first multiple of 16 at least 16 bytes on, and its tag fits a signed byte. |
| HeapLayout.Conservation | libc/src/stdlib/liballoc_1_1.c:368-386 | Headers, payloads and gaps of a block add up to its size, whatever the order of allocations. |
| HeapLayout.SkipIsSafe | libc/src/stdlib/liballoc_1_1.c:378-394 | Skipping a block whose size minus usage is too small never skips a block with a large enough gap. |
| HeapLayout.NewBlockHoldsRequest | libc/src/stdlib/liballoc_1_1.c:223-258 | A new block holds the request it was obtained for exactly when the 32-bit size computation does not wrap around. |
| HeapLayout.NewBlockSize | libc/src/stdlib/liballoc_1_1.c:223-258 | Below that bound, in numbers: whole pages, at least 16 of them, and otherwise less than a page more than the size and the two headers take. |
| HeapLayout.UserRangesDisjoint | libc/src/stdlib/liballoc_1_1.c:434-443 | Any two live user ranges are disjoint and 16-byte aligned. |
| HeapLayout.UserInsideCell | libc/src/stdlib/liballoc_1_1.c:25-38 | The aligned request and its tag byte lie inside the padded minor. |
| HeapLayout.PlacedIsNew | libc/src/stdlib/liballoc_1_1.c:503-526 | A minor placed in a gap shares no address with any live one, header included. |
| HeapLayout.ReleaseUndoesPlace | libc/src/stdlib/liballoc_1_1.c:709-721 | Releasing a placed minor restores the block, usage and all. |
| HeapLists.LinkKeepsMirrors | libc/src/stdlib/liballoc_1_1.c:542-560 | Linking a minor into a gap keeps every previous, next, first and owner pointer of both lists in step with the layout. |
| HeapLists.UnlinkKeepsMirrors | libc/src/stdlib/liballoc_1_1.c:709-721 | So does unlinking a minor, at either end or in the middle. |
| HeapLists.AppendKeepsMirrors | libc/src/stdlib/liballoc_1_1.c:597-599 | So does linking a new major at the end. |
| HeapLists.UnlinkMajorKeepsMirrors | libc/src/stdlib/liballoc_1_1.c:726-734 | So does taking an empty major out, be it the root, the last or in between. |
| HeapLists.WriteKeepsTags | libc/src/stdlib/liballoc_1_1.c:25-49 | Writing inside a user range never damages the tag byte of a live allocation. |
| Liballoc.Heap.constructor | libc/src/stdlib/liballoc_1_1.c:94-100 | An empty heap satisfies the invariant. |
| Liballoc.Heap.FindGap | libc/src/stdlib/liballoc_1_1.c:414-574 | Cases 2 to 4 find the first gap, in address order, that takes the request, and fail only if the block has none. |
| Liballoc.Heap.Walk | libc/src/stdlib/liballoc_1_1.c:366-409 | One pass over the majors stops at the first that has a gap and passes only majors that have none; the best bet has at least the free memory of every major passed. |
| Liballoc.Heap.Search | libc/src/stdlib/liballoc_1_1.c:351-606 | Started at the best bet and restarted at the root, the search terminates and fails exactly if no major has a gap; it chooses the first from the start on, then from the root on. |
| Liballoc.Heap.Malloc | libc/src/stdlib/liballoc_1_1.c:279-622 | The system is asked for memory exactly if no major has a contiguous gap of the request and 56 bytes; otherwise exactly the chosen gap is filled. A region obtained has whole pages, at least 16, or less than a page more than the request, its padding and both headers take, with the request at its start; it becomes the best bet exactly if it is the first one, or the last one had enough free memory in total and none has as much as the new one. Sorted minors, both lists, running totals, tags, best bet and non-empty majors are kept. A failure changes only a counter and the best bet, which is then a major with the most free memory of all. |
| Liballoc.ChosenBlock | libc/src/stdlib/liballoc_1_1.c:351-409 | Which major is chosen: the best bet if it has more free memory than the request and 56 bytes, and a gap; without a best bet, or if it has no more than that, the first major of the list with a gap. |
| Liballoc.FirstMajorServes | libc/src/stdlib/liballoc_1_1.c:223-276 | A run on an empty heap: any two requests that fit 64K with their headers and padding are served from one region of 64K, and the system is not asked for the second. |
| Liballoc.Heap.Free | libc/src/stdlib/liballoc_1_1.c:632-755 | A live allocation and nothing else goes, with its major if it was the last one; any other pointer only raises a counter. The totals go down by just its padded size and that major. The best bet moves to the major exactly if that has more free memory, and becomes null with its own major only. |
| Liballoc.Heap.Realloc | libc/src/stdlib/liballoc_1_1.c:777-866 | In place if smaller. On growth it fails exactly if the heap is full and the system refuses: then, as far as a page is mapped at address 0 for the copy there, just the bytes from 0 on, as many as the old request, are overwritten and the old allocation is gone. Otherwise the old request is copied, no other live byte changes and the old allocation goes. |
| Liballoc.GrowthLoses | libc/src/stdlib/liballoc_1_1.c:860-863 | A run on an empty heap: one page-sized region, an allocation, and a growth the system refuses, which loses it, unless the copy to address 0 faults first. |
| Liballoc.Heap.CopyToNew | libc/src/stdlib/liballoc_1_1.c:860-862 | A growing copy has the old requested bytes and leaves the bytes of all live allocations alone; null is returned exactly if the heap is full and the system refuses, and then the copy goes to address 0. |
| Liballoc.FreeUndoesMalloc | libc/src/stdlib/liballoc_1_1.c:709-735 | Freeing what malloc just placed restores the whole layout, including a major obtained for it. |
| Liballoc.SecondFreeMisses | libc/src/stdlib/liballoc_1_1.c:656-699 | A freed header is not found again, so a second free of the pointer is refused, as long as the header can be read: its region is still there if and only if the allocation was not its last. |
| Liballoc.HandedFound | libc/src/stdlib/liballoc_1_1.c:648-653 | The header that free and realloc compute from a user pointer is that of the allocation it was handed out for. |
| Words.MaskTest | kernel/common/src/mm/pmm.c:78-86 | Which bits a shifted mask of ones has, with the shift count of the machine: none at all for 32 ones. |
| Words.PairTest | kernel/common/src/mm/pmm.c:150-152 | The two-bit mask test sees exactly the two children. |
| Words.FullTest | kernel/common/src/mm/pmm.c:108 | The skip test is true exactly of words with all bits set. |
| Bitmaps.SetRange | kernel/common/src/mm/pmm.c:66-86 | The three stores set exactly the bits that the mask widths, as written or as intended, amount to. |
| Bitmaps.WrittenIsExact | kernel/common/src/mm/pmm.c:78-86 | Masks of count + 1 ones set exactly the range if and only if no 31-bit piece is left clear and the bit after an unaligned end was set already. |
| Bitmaps.WrittenOnFreeRange | kernel/common/src/mm/pmm.c:78-86 | On a free range followed by a free bit that means: only if the range ends on a word boundary and does not start one bit after one. |
| Bitmaps.WrittenTakesTwo | kernel/common/src/mm/pmm.c:78-86 | A concrete range for which the masks as written take a bit too many. |
| Bitmaps.FindRun | kernel/common/src/mm/pmm.c:99-124 | The search loop, in step with bit = 32 * word + offset through all skips, stops at the first position where its counter reaches the wanted number, or there is none. |
| Bitmaps.ResetScanIsPlainScan | kernel/common/src/mm/pmm.c:99-124 | With the counter reset at a skipped word, the search finds exactly what a plain bit-by-bit search finds, for any bitmap contents. |
| Bitmaps.WrittenScan | kernel/common/src/mm/pmm.c:107-124 | As written, the position found is the first run if and only if no window of clear bits and full words, from a clear bit to its n-th, ends before that run does: a condition on the bitmap and n alone. |
| Bitmaps.WrittenNone | kernel/common/src/mm/pmm.c:107-127 | As written, the search finds nothing if and only if there is neither a run nor such a window. |
| Bitmaps.OneBitFound | kernel/common/src/mm/pmm.c:107-124 | A search for a single bit is never misled, whatever the bitmap. |
| Bitmaps.WrittenMiss | kernel/common/src/mm/pmm.c:107-127 | As written, a search without a result misses nothing. |
| Bitmaps.WrittenScanJoinsRuns | kernel/common/src/mm/pmm.c:107-124 | A concrete bitmap for which the search as written returns a range that is in use. |
| Pmm.LevelsDetermined | kernel/common/src/mm/pmm.c:147-158 | A level-k bit summing up its two children, all levels are a function of level 0. |
| Pmm.CoarseRun | kernel/common/src/mm/pmm.c:96-121 | A run of clear blocks of any level is a run of clear frames. |
| Pmm.CoverAllKeepsConsistent | kernel/common/src/mm/pmm.c:59-87 | Reserving a non-empty range at all levels keeps every bit the sum of its children. |
| Pmm.FrameAllocator.constructor | kernel/common/src/mm/pmm.c:23-41 | The levels are laid out with just the words their bits need, all clear. |
| Pmm.LevelSize | kernel/common/src/mm/pmm.c:31-35 | How many bits and words each level has: one for each block of 1, 2, 4 or 8 frames, in just the words they need. |
| Pmm.FrameAllocator.Reserve | kernel/common/src/mm/pmm.c:55-88 | Rounding the byte range out level by level sets, at each level, just the blocks that the frames touch; addresses beyond memory are ignored and lengths clamped. With exact masks the invariant is kept if and only if the range has a frame or touches only blocks that were set. With exact masks just the frames with a byte of the range are taken in addition. |
| Pmm.FrameAllocator.Search | kernel/common/src/mm/pmm.c:90-127 | From the smallest level that covers the length downwards, the first level with a run gives its first run; without a result no level has one. |
| Pmm.SmallestLevel | kernel/common/src/mm/pmm.c:91-94 | Where the search starts: the smallest of the levels of 4096, 8192, 16384 and 32768 bytes that holds the request, or the highest. |
| Pmm.FewestBlocks | kernel/common/src/mm/pmm.c:98 | And what it looks for at each level: the fewest blocks that hold the request. |
| Pmm.FrameAllocator.Alloc | kernel/common/src/mm/pmm.c:90-128 | In every form a failure misses nothing and changes nothing, and what is reserved is the request at the address computed for the first hit of the search. As intended it succeeds exactly if frames in a row are free, and exactly the frames of the request, all free before, become reserved. As written it succeeds exactly if some level has a run or a window that passes for one. It takes just free frames exactly if the levels are proper at the highest such level, as long as the hit lies below 4G; otherwise the 32-bit product gives another address, and it does so exactly if that one happens to be of free frames with exact masks, which for whole blocks not misled it never is. In every form with the invariant, if a block of the length asked for, of 1, 2, 4 or 8 frames, is free, the lowest one is returned, so an address that is a multiple of that length as long as it fits. Whenever just the frames of the request are taken, each of its bytes lies in the memory and in a frame that was free. |
| Pmm.AlignedHit | kernel/common/src/mm/pmm.c:94-121 | The hit for a request of 1, 2, 4 or 8 frames is the lowest free block of that length, if there is one, whatever is to be put right. |
| Pmm.WrittenTakes | kernel/common/src/mm/pmm.c:55-128 | What proper levels are, as an equivalence, for a hit whose address fits: no window passes for a run there before the first run ends, and for the first run the masks as written are exact at every level; otherwise frames in use are taken, or too many or too few. |
| Pmm.WrittenAnywhere | kernel/common/src/mm/pmm.c:96-121 | The equivalence for every hit, from 4G on too, where the product of block number and block length wraps around in 32 bits. |
| Pmm.FoundAnywhere | kernel/common/src/mm/pmm.c:96-121 | With search and masks put right but the product left in 32 bits: the frames of the request are taken, all free before and no others, if and only if the hit lies below 4G or the other address happens to be free. |
| Pmm.StraysNeverFree | kernel/common/src/mm/pmm.c:117-121 | For whole blocks that never happens: a first run from 4G on is given the address of frames in use. |
| Pmm.NoneStrays | kernel/common/src/mm/pmm.c:117-121 | In memory of up to 4G every hit lies below 4G, whatever the bitmaps. |
| Pmm.FrameAllocator.AllocFirst | kernel/common/src/mm/pmm.c:90-128 | As written, a request for one frame returns the address of the first free frame, cut to 32 bits. |
| Pmm.FrameAllocator.FrameAbove4G | kernel/common/src/mm/pmm.c:23-121 | A run as written with memory that ends above 4G: a free frame is found there, and the address returned is that of frame 0, which is in use; no frame is newly taken. |
| Pmm.FrameAllocator.Init | kernel/common/src/mm/pmm.c:23-49 | All of the start, for any ranges reserved in it: bitmaps, tail, then the ranges. As intended, and as written for whole megabytes, just the frames of those ranges are taken and the invariant holds. |
| Pmm.FoundIsTaken | kernel/common/src/mm/pmm.c:117-122 | A range found at a coarse level was wholly free at frame level, and reserving it at its own address, not cut to 32 bits, takes just its frames and keeps the invariant. |
| Pmm.FrameAllocator.Free | kernel/common/src/mm/pmm.c:130-160 | Clears exactly the frames of the range and keeps every bit the sum of its children, and so the invariant, although the upward loop stops early. Just the frames with a byte of the range become free. |
| Pmm.FrameAllocator.FreeFrame | kernel/common/src/mm/pmm.c:142-158 | One frame: stopping at the first block with a child in use leaves no higher level wrong. |
| Pmm.FreeUndoesTake | kernel/common/src/mm/pmm.c:90-160 | Freeing what was just allocated restores every bitmap of every level exactly. |
| Pmm.EmptyReserve | kernel/common/src/mm/pmm.c:55-88 | A call that covers no frame keeps the summaries right if and only if, at each level, the block it touches, if any, was set before; frame numbers that are multiples of 8 touch none. |
| Pmm.EmptyReserveTakesBlocks | kernel/common/src/mm/pmm.c:55-88 | A concrete call on a free memory that takes no frame but a block of a higher level. |
| Pmm.FrameAllocator.ReserveTail | kernel/common/src/mm/pmm.c:43-45 | What the reservation beyond memory takes, as intended and as clamped. |
| Pmm.TailIsReady | kernel/common/src/mm/pmm.c:43-45 | The intended start: consistent, and nothing beyond memory can be found. |
| Pmm.ClampedTail | kernel/common/src/mm/pmm.c:43-57 | As clamped, the start is right exactly for a number of frames that is a multiple of 256. |
| Pmm.ClampedTailOfOneFrame | kernel/common/src/mm/pmm.c:43-57 | A concrete memory size for which frames beyond it are free at the start. |
| Paging.SplitKeepsTranslation | kernel/cpu/i386/src/vmm_ops.c:147-185 | Turning a 4M page, or an empty entry, into a table keeps the translation of every page and the use count. |
| Paging.EntryWritten | kernel/cpu/i386/src/vmm_ops.c:187-196 | Writing an entry changes the translation of its page only, and keeps the count exact. |
| Paging.PageAsAsked | kernel/cpu/i386/src/vmm_ops.c:187-196 | What the page has then: the frame asked for; writable and global as asked; open to user code if asked and if the directory entry allows it, which a new table always does; and the five other bits of the page before, or none. |
| Paging.EditKeepsConsistent | kernel/cpu/i386/src/vmm_ops.c:96-105 | Editing one directory index and its copies keeps tables unshared between indices and all spaces of the chain in agreement on the kernel's half. |
| Paging.EditKeepsCounted | kernel/cpu/i386/src/vmm_ops.c:187-199 | And keeps every use count equal to the entries in use: 1024 for a 4M page, none for an empty entry. |
| Spaces.AddressSpaces.Propagate | kernel/cpu/i386/src/vmm_ops.c:96-105 | Walking the links copies entry, table and count to every space on the chain and to no other. |
| Spaces.AddressSpaces.MapPage | kernel/cpu/i386/src/vmm_ops.c:117-203 | One page: it translates as requested in every space the change reaches, and every other page of every space as before; without storage for a table nothing changes. Through a space off the chain, the entry it had there goes to all spaces of the chain. Looked up, the page has the frame and flags asked for and the five bits nobody asks for as before. |
| Spaces.AddressSpaces.Map | kernel/cpu/i386/src/vmm_ops.c:107-206 | Small-page path: a prefix of the range maps to consecutive frames, all of it unless a table could not be had; every other page of every space is unchanged. Invariant and counts are kept. Looked up, each page has its frame, counted up modulo 2^20, and the flags asked for; the bytes mapped reach the size, rounded for unaligned addresses, or a table is missing there. |
| Paging.BytesMapped | kernel/cpu/i386/src/vmm_ops.c:108-116 | The bytes mapped by a number of pages, against the size asked for: never a page more, and less exactly if the loop stopped early. |
| Unmapping.ClearedExact | kernel/cpu/i386/src/vmm_ops.c:283-301 | Unmapping one page of a table is right, in translations and count, if and only if the entry was in use or none was; always, if only entries in use are counted down. |
| Unmapping.WrittenRunExact | kernel/cpu/i386/src/vmm_ops.c:219-308 | Unmapping a run of pages of one table as written is right if and only if all of them were mapped or no other page of the table was. |
| Unmapping.PartialUnmapExact | kernel/cpu/i386/src/vmm_ops.c:229-277 | Unmapping part of a 4M page, by dropping it or by a table with a hole, removes just the pages of the range if and only if the last entry that the code computes is the wanted one. |
| Unmapping.WrittenShift | kernel/cpu/i386/src/vmm_ops.c:229-251 | For which ranges that is so with the shift by 22 instead of 12, exactly. |
| Unmapping.WholeIs | kernel/cpu/i386/src/vmm_ops.c:229-234 | When a 4M page goes as a whole, in addresses: it lies in the range altogether and the range ends below 4G, or it is the last one. |
| Unmapping.IntendedIsSound | kernel/cpu/i386/src/vmm_ops.c:224-231 | With both places put right, a directory index is unmapped rightly if and only if it is not the last one with a 4M page of which only the first part goes: there the next address wraps to zero. |
| Unmapping.UnmapLosesPage | kernel/cpu/i386/src/vmm_ops.c:291-300 | A concrete table of which unmapping an unused page loses another one. |
| Unmapping.PartialUnmapMisses | kernel/cpu/i386/src/vmm_ops.c:251 | A 4M page of which a hundred pages are to go: the seventh still translates. |
| Unmapping.LastLargePageGoes | kernel/cpu/i386/src/vmm_ops.c:230-233 | The last 4M page, of which one page is to go: none is left. |
| Paging.RoundedReachesEnd | kernel/cpu/i386/src/vmm_ops.c:108-112 | For unaligned addresses, the exact condition under which the rounded size reaches the end of the range. |
| Paging.RoundedFallsShort | kernel/cpu/i386/src/vmm_ops.c:108-112 | Offsets and a size for which it does not. |
| Spaces.AddressSpaces.UnmapStep | kernel/cpu/i386/src/vmm_ops.c:219-307 | One round, over empty entries, 4M pages whole or in part, and tables: exactly what becomes of the directory index and its copies, that all others stay, where the loop goes on, and when it cannot. |
| Spaces.AddressSpaces.Unmap | kernel/cpu/i386/src/vmm_ops.c:208-309 | Exactly what becomes of every directory index of every space, in either form; it stops early only at a 4M page it has no table for. A size that wraps to zero in 32 bits unmaps nothing; the 32-bit count of bytes starts over exactly if a range from page 0 is done up to the end of the address space, and the state is given up to there. |
| Unmapping.CountWraps | kernel/cpu/i386/src/vmm_ops.c:217-304 | The 32-bit count of unmapped bytes is exact, but for a range from page 0 at the end of the address space, where it is back at zero. |
| Unmapping.UnmapExact | kernel/cpu/i386/src/vmm_ops.c:208-309 | Just the pages of the range are gone, in every space the change reaches, and all counts are exact, if and only if every directory index of the range is sound: of a table, all pages of the range or no others were mapped, or only entries in use are counted down; of a 4M page, the last entry is the wanted one. |
| Unmapping.UnmapUndoesMap | kernel/cpu/i386/src/vmm_ops.c:107-309 | Unmapping what was mapped over unused pages restores every translation of every space. |
| Spaces.AddressSpaces.NewConfig | kernel/cpu/i386/src/vmm_ops.c:29-50 | A new space has the kernel's half and nothing else, others are unchanged; afterwards the chain is the kernel's space and the new one only. Without storage nothing changes. |
| Spaces.AgreesWithKernel | kernel/cpu/i386/src/vmm_ops.c:40-43 | Over any run of changes of the kernel's half, a space agrees with the kernel at an index if and only if it is on the chain, or what was written there last is what it had all along. |
| Spaces.StaleEntrySpreads | kernel/cpu/i386/src/vmm_ops.c:96-105 | A page of the kernel's half mapped through a space off the chain: all spaces of the chain then translate that directory index as that space did. |
| Spaces.AddressSpaces.StaleSpaces | kernel/cpu/i386/src/vmm_ops.c:29-206 | A run of two new spaces and two mappings after which a page mapped by the kernel is lost to everybody, and was never seen by the first space. |
| Spaces.LookupsAgree | kernel/cpu/i386/src/vmm_ops.c:311-383 | Whether an address is used, and its physical address, agree with the table walk; the address exactly if it is not in a 4M page from 2G on. There it has all upper bits set. |
| Spaces.SignExtended | kernel/cpu/i386/src/vmm_ops.c:375-377 | A 4M page at 2G whose physical address comes out with all upper bits set. |
| BootMap.BootSpace.MapMemory | kernel/cpu/i386/src/vmm_lh.c:13-53 | The loop ends although its bound moves, with one table if the start is not a multiple of 4M and none otherwise. |
| BootMap.BootTranslations | kernel/cpu/i386/src/vmm_lh.c:18-53 | Every page below the final bound, the allocated table included, is mapped at itself and at +3G, and no other page is. Each is writable, global, closed to user code and has no other bit set. |
| BootMap.BootSlotOk | kernel/cpu/i386/src/vmm_lh.c:20-51 | The use counts of the boot directory are exact. |
| BootMap.BootSpace.DropIdentity | kernel/cpu/i386/src/vmm_init.c:25-33 | Stopping at the first empty entry clears the whole lower half and leaves the kernel's half alone. |
| BootMap.MappedIsPrefix | kernel/cpu/i386/src/vmm_init.c:25-26 | The directory entries in use in the lower half come first. |
| BootMap.BootedIsConsistent | kernel/cpu/i386/src/vmm_init.c:25-33 | The memory manager starts with its invariant and exact counts. |
| BootMap.ProjectBitmapSize | kernel/cpu/i386/src/pmm.c:17-32 | The projected size, as page-rounded end minus start. |
| BootMap.LayOutBitmaps | kernel/common/src/mm/pmm.c:25-40 | The bitmaps of up to four levels are laid out each right behind the one before, with the words each level needs. |
| BootMap.ProjectionFits | kernel/cpu/i386/src/pmm.c:17-32 | The projection covers the bitmaps with less than a page of slack and ends at a page, for any memory size. |
| BootMap.OwnSpace | kernel/common/src/mm/pmm.c:28-47 | Whether the frames that hold the bitmaps are taken at the start, as an equivalence: as written a virtual address is reserved for them, so exactly if the kernel image and what the machine keeps hold them all; with the physical address always. |
| BootMap.KernelHoldsNone | kernel/targets/i386-pc-multiboot/src/pmm.c:52-98 | The kernel image does not: the space for the bitmaps starts after its end. |
| BootMap.StartFrames | kernel/common/src/mm/pmm.c:23-49 | The start with the arguments the kernel passes: where the bitmaps lie, which frames are taken, and when those of the bitmaps are. |
| BootMap.BitmapHandedOut | kernel/common/src/mm/pmm.c:23-121 | A run as written, for any memory of whole megabytes from three of them up to 3G: the first frame handed out is that of the lowest bitmap. |
| BootMap.Boot | kernel/cpu/i386/src/vmm_lh.c:13-56 | All level bitmaps lie in the memory mapped in the upper half, which ends less than two pages after them. Below 3G nothing is mapped; from there on just that memory is, writable, global and closed to user code, as are its tables. |
| VmmAlloc.VirtualMemory.PmmAlloc | kernel/common/src/mm/pmm.c:90-128 | The frame allocator as its callers see it: failure exactly if there is no run of free frames, else just that run reserved, at the first place the search over the levels comes to; for 1, 2, 4 or 8 frames that is the lowest free block of that length, if any. |
| VmmAlloc.VirtualMemory.MapRun | kernel/cpu/i386/src/vmm_ops.c:117-203 | Mapping a chunk page by page, tables from the frame allocator: it goes on until a table cannot be had. |
| VmmAlloc.PictureNext | kernel/cpu/i386/src/vmm_ops.c:147-196 | One more page of an allocation on its way: the pages so far translate to the frames of the list, the tables made are those that were missing, and all their frames are newly reserved and pairwise distinct. |
| VmmAlloc.AllocatedPage | kernel/common/src/mm/vmm.c:44-83 | Any page of an allocated range: it has a frame that was free before and is taken now, and just the flags asked for. |
| VmmAlloc.VirtualMemory.AllocPages | kernel/common/src/mm/vmm.c:58-83 | Tested for the right value: the range is mapped onto pairwise distinct, newly reserved frames if and only if as many frames are free as it has pages and missing tables. It is all or nothing if and only if no table had to do without a frame, which cannot happen with enough frames or no missing table; with frames in a row it happens exactly if there are too few. Tested for the other value, it reports success and does its work exactly if the frames are free in a row and suffice for the tables. |
| VmmAlloc.VirtualMemory.AllocContiguous | kernel/common/src/mm/vmm.c:44-50 | It fails exactly if there is no run of frames, and changes nothing then; a success has done its work exactly if the frames suffice for the tables as well. The frames of the pages then follow each other. |
| VmmAlloc.VirtualMemory.Alloc | kernel/common/src/mm/vmm.c:44-86 | Both kinds of allocation at the range that was found, for either value tested. |
| VmmAlloc.PagesBack | kernel/common/src/mm/vmm.c:66-69 | The cleanup of a complete mapping brings back every translation of every space, with either form of unmapping. |
| VmmAlloc.FramesBack | kernel/common/src/mm/vmm.c:66-69 | And every frame, those of the tables included, if no table of the range had nothing in it before. |
| VmmAlloc.FrameLost | kernel/common/src/mm/vmm.c:66-69 | If the mapping was cut short, the cleanup leaves a frame taken that nothing maps. |
| VmmAlloc.VirtualMemory.FreeFrames | kernel/common/src/mm/vmm.c:97-104 | Frees exactly the frames behind the mapped pages of the range. |
| VmmAlloc.VirtualMemory.UnmapRange | kernel/cpu/i386/src/vmm_ops.c:283-307 | Unmapping frees exactly the frames of the tables that are given up. |
| VmmAlloc.FreeCountRun | kernel/common/src/mm/vmm.c:64-70 | Taking a run of free frames lowers the number of free frames by its length. |
| VmmAlloc.TableTakesNone | kernel/common/src/mm/vmm.c:44-86 | A run with one free frame, one page and no table: success is reported and nothing is mapped. |
| VmmAlloc.ApartIsNoRun | kernel/common/src/mm/vmm.c:58-83 | A run with two free frames that are apart and two pages, tested for the other value: success is reported and nothing was allocated. |
| IdAlloc.IdAllocator.Init | kernel/common/src/algo/idalloc.c:10-23 | A positive initial size is rounded up to the next whole page; no ID is in use. Without memory there is no allocator. |
| IdAlloc.IdAllocator.Alloc | kernel/common/src/algo/idalloc.c:27-44 | Issues the next ID, never one in use, and marks just it; calls itself at most once, after growing to the fewest pages with more bytes than that ID; fails exactly if the bitmap is at its end and there is no memory for more, and then the bitmap is lost. |
| IdAlloc.IdAllocator.Free | kernel/common/src/algo/idalloc.c:46-50 | Exactly that ID is out of use; the counter does not go back. |
| IdAlloc.IdAllocator.Grow | kernel/common/src/algo/idalloc.c:52-69 | No ID is lost or gained, and the wanted one fits, in the fewest pages with more bytes than its number; but a growth that is needed, with no memory for it, loses the bitmap, as realloc releases it. With memory it always succeeds. |
| IdAlloc.IdAllocator.Trim | kernel/common/src/algo/idalloc.c:71-88 | The bitmap shrinks to just the pages that hold the IDs in use, and none is lost. |
| IdAlloc.IdAllocator.Run | kernel/common/src/algo/idalloc.c:27-88 | Over any run of operations issued IDs strictly increase, so none is issued twice; the bitmap is right, of the size and content that the run amounts to, if and only if no growth was refused. |
| IdAlloc.RefusedGrowth | kernel/common/src/algo/idalloc.c:60-67 | A run with a refused growth: an ID in use is no longer marked, and issuing the next one writes to memory that was freed. |
| IdAlloc.IssuedAndNotFreed | kernel/common/src/algo/idalloc.c:27-50 | The IDs in use after a run are exactly those issued and not freed since. |
| DList.List.Insert | kernel/common/src/algo/dllist.c:3-48 | The node is at the position asked for if there is one, at the end for -1 and beyond it, and otherwise at the length plus the position, or first if that is negative; the others keep their order and all links agree. The comment in the header is one off for positions from -2 down. |
| DList.List.Remove | kernel/common/src/algo/dllist.c:50-71 | The node is gone, its links are clear, the others keep their order; a node in no list is left alone. |
| DList.RemoveUndoesInsert | kernel/common/src/algo/dllist.c:3-71 | Removing an inserted node restores the list. |
| Scheduler.Ahead | kernel/common/src/tasking/thread.c:48-59 | A thread ahead of the current one runs after exactly its distance in yields, whatever is created meanwhile. |
| Scheduler.Behind | kernel/common/src/tasking/thread.c:48-59 | A thread behind runs after the end of the list and its own position, within as many yields as the list is long when the run wraps. |
| Scheduler.EveryThreadRuns | kernel/common/src/tasking/thread.c:48-59 | With finitely many creations every thread runs, within the stated number of yields. |
| Scheduler.Starvation | kernel/common/src/tasking/thread.c:48-59 | With a thread created before each yield, threads behind the current one never run. |
| Scheduler.Scheduler.constructor | kernel/common/src/tasking/thread.c:29-44 | The kernel's thread is the head of the list and current. |
| Scheduler.Scheduler.Switch | kernel/cpu/i386/src/thread.s:14-26 | The outgoing thread's context is saved, the incoming one's resumed, no other touched. |
| Scheduler.Scheduler.Yield | kernel/common/src/tasking/thread.c:48-57 | The next thread of the list, or the kernel's, runs with the context it was saved with. |
| Scheduler.Scheduler.EvaluateYield | kernel/common/src/tasking/thread.c:48-73 | Switches exactly if a quantum has passed since the last yield, after calling the hook if there is one; the timer is read again for the time of the yield. |
| Scheduler.Scheduler.RunTimer | kernel/common/src/tasking/thread.c:48-73 | Over any run of ticks, with two timer readings each, threads are switched at just the times that the quantum rule gives. |
| Scheduler.QuantumApart | kernel/common/src/tasking/thread.c:48-73 | Those are a quantum, 1,000,000 ticks of the timer, apart from each other and from the yield before, and no tick comes a quantum or more after a yield without a switch. |
| Scheduler.Scheduler.Create | kernel/common/src/tasking/thread.c:148-153 | A new thread is last; the kernel's stays first and the current one current. |
| Scheduler.Scheduler.Run | kernel/common/src/tasking/thread.c:48-153 | Any run of yields and creations on the list goes through the positions that the fairness results speak of. |
| Ansi.ParsePrinted | kernel/common/src/io/ansi_terminal/write.c:4-14 | Reading a printed number gives it back, modulo 2^32, and stops at its end. |
| Ansi.Terminal.ReadDec | kernel/common/src/io/ansi_terminal/write.c:4-14 | Digits are read until the parameters end or another character comes, modulo 2^32. |
| Ansi.InterpretPrinted | kernel/common/src/io/ansi_terminal/write.c:350-421 | Interpreting any printed list of colour commands gives exactly that list. |
| Ansi.SingleNumbers | kernel/common/src/io/ansi_terminal/write.c:363-374 | Which numbers set which of the 16 colours of foreground and background, and which go back to the default. |
| Ansi.SkippedNumber | kernel/common/src/io/ansi_terminal/write.c:357-362 | A zero, or a number that stands for nothing, is skipped if more follows; a last zero resets background and foreground, another such number does nothing. |
| Ansi.NumberAfter | kernel/common/src/io/ansi_terminal/write.c:351-362 | The same after any printed list of commands, which are performed before. |
| Ansi.ExtendedNumbers | kernel/common/src/io/ansi_terminal/write.c:375-417 | The forms with further numbers: one of 256 colours, cut to 8 bits, and three components as they are. |
| Ansi.ExtendedCut | kernel/common/src/io/ansi_terminal/write.c:375-418 | With numbers missing, or of a kind other than 2 and 5, nothing is done. |
| Ansi.Terminal.SetColour | kernel/common/src/io/ansi_terminal/write.c:350-421 | Performs just the commands its parameters stand for, in order; zero resets only as the last number. |
| Ansi.Terminal.Write | kernel/common/src/io/ansi_terminal/write.c:423-498 | Every character makes the step of the state machine; never more than 32 parameter characters are stored, over all inputs. |
| Ansi.Terminal.Feed | kernel/common/src/io/ansi_terminal/write.c:423-498 | Any string fed to the terminal makes the steps that the sequence results speak of. |
| Ansi.FedSequence | kernel/common/src/io/ansi_terminal/write.c:441-495 | A sequence of at most 32 parameter characters is performed; of a longer one, all after the 33rd appears on the screen. |
| Ansi.ResetSequence | kernel/common/src/io/ansi_terminal/write.c:357-361 | ESC [ 0 m from idle: background and foreground are reset, nothing else, and the terminal is idle again. |
| Ansi.ResetAfter | kernel/common/src/io/ansi_terminal/write.c:350-498 | A printed list of commands with a zero after it: those commands, then both resets. |
| Ansi.EscapeShown | kernel/common/src/io/ansi_terminal/write.c:428-440 | An escape that starts no sequence appears with the character after it, as far as there is room, and the terminal waits for a bracket on. |
| Ansi.ControlSequence | kernel/common/src/io/ansi_terminal/write.c:441-496 | Cursor and erase sequences come out with their parameters, of any characters but final ones, and end there. |
| Ansi.SequenceRoundTrip | kernel/common/src/io/ansi_terminal/write.c:350-498 | Feeding a printed list of commands to an idle terminal performs exactly those and comes back to idle, if and only if they take no more than 32 characters. |
| VgaText.MoveDown | libc/src/string/memmove.c:15-19 | Copying forward moves overlapping memory down intact. |
| VgaText.Teletype.ScrollUp | kernel/machine/pc_common/drivers/video/vga_text/src/vga_text.c:12-16 | All rows move up by one and the last is blank. |
| VgaText.Teletype.Put | kernel/machine/pc_common/drivers/video/vga_text/src/tty.c:48-81 | The buffer goes on being a window of 25 rows on an unbounded canvas under the layout rules, with the cursor inside. |
| VgaText.Teletype.PutAll | kernel/machine/pc_common/drivers/video/vga_text/src/tty.c:48-81 | The same for every run of characters. |
| VgaText.Teletype.SetCursor | kernel/machine/pc_common/drivers/video/vga_text/src/tty.c:24-29 | Only positions on the screen are taken. |
| VgaText.PlainText | kernel/machine/pc_common/drivers/video/vga_text/src/tty.c:70-77 | Plain text lies on the canvas as typed and changes nothing else, however often the screen scrolls. |
| VgaText.ViewFollows | kernel/machine/pc_common/drivers/video/vga_text/src/tty.c:59-77 | The view moves down only as far as needed, so that the position is in its last row. |
| VgaText.TextLines | kernel/machine/pc_common/drivers/video/vga_text/src/tty.c:59-77 | Lines of plain text, each with a newline: each lies at the start of a row, right below the rows that the line before takes. |
| VgaText.OneLine | kernel/machine/pc_common/drivers/video/vga_text/src/tty.c:59-77 | One line from the start of a row: its characters and nothing else change, and the next line starts at the start of the next free row. |
| VgaText.NextLine | kernel/machine/pc_common/drivers/video/vga_text/src/tty.c:59-63 | A newline goes to the start of the next row and changes no cell. |
| VgaText.ReturnIgnored | kernel/machine/pc_common/drivers/video/vga_text/src/tty.c:64-65 | A carriage return does nothing. |
| VgaText.TabStops | kernel/machine/pc_common/drivers/video/vga_text/src/tty.c:66-69 | A tab goes to the next multiple of eight. |
| VgaText.TabBlanks | kernel/machine/pc_common/drivers/video/vga_text/src/tty.c:66-69 | It leaves spaces with the attribute in just the cells it passes. |
| VgaText.BackspaceAfterPrint | kernel/machine/pc_common/drivers/video/vga_text/src/tty.c:51-58 | A backspace goes back to where the last character was printed, across rows and after scrolling. |
| VgaText.SteppedBack | kernel/machine/pc_common/drivers/video/vga_text/src/tty.c:51-58 | It changes no cell, and goes back by one unless that is out of view. |
| VgaText.AttributeKept | kernel/machine/pc_common/drivers/video/vga_text/src/vga_text.c:18-21 | The attribute is stored as given exactly for characters below 128. |

## Left out

- Liballoc.Heap.Malloc: requests within 4096 + 80 bytes of 4G, for which the block size wraps around in 32 bits; HeapLayout.NewBlockHoldsRequest gives the exact bound.
- Liballoc.Heap.Free: magic numbers are modelled as a header being live at an address; memory that merely looks like a header is not. A pointer behind which no memory is mapped makes the code fault; the model refuses it like any other without a header (Liballoc.SecondFreeMisses says when a freed one is such a pointer).
- Liballoc.Heap.Realloc: the fault of a copy to address 0 where no page is mapped; Liballoc.Heap.CopyToNew, Liballoc.GrowthLoses and IdAlloc.RefusedGrowth take it to go through.
- The memory source of the heap: a parameter that gives a fresh, page-aligned, disjoint region at or above 0xF0000000, or none.
- `calloc`, heap dumps, debug output, overrun diagnostics and the lock stubs of the heap.
- Pmm.FrameAllocator.Alloc: what is taken is characterised for the form as written and the intended one; of forms with only one of masks and search put right there are the clauses on hits and failures only. Memory from 8T and requests from 16T on, where 32-bit numbers of frames wrap around.
- Spaces.AddressSpaces.Map: the 4M-page path, which leaves out the size bit and moves the wrong counter (kernel/cpu/i386/src/vmm_ops.c:121-144), by a precondition that no aligned 4M is left to map; pages of the kernel's half through a space off the chain, which Spaces.AddressSpaces.MapPage covers page by page.
- Spaces.AddressSpaces.Unmap: ranges of the kernel's half through a space off the chain, by a precondition; what the loop does once its count is back at zero.
- Spaces.AddressSpaces.NewConfig: the physical address of the directory, which the code stores in the new space and then clears (kernel/cpu/i386/src/vmm_ops.c:39 and :43).
- VmmAlloc.VirtualMemory.UnmapRange: the same wrap of the count, for a cleanup of a range from page 0 into the last 4M.
- Spaces.AddressSpaces.MapPage: through a space off the chain, by a precondition that its directory entry still refers to a table; the table it had may have been given up by the spaces of the chain.
- Paging: storage for page tables comes from a parameter and its own mapping in the kernel's half is not modelled; ranges end at 4G at most; the upper physical address bits of 4M pages are zero; every non-zero entry is present.
- Cloning a source space, `vmm_delete_config`, `vmm_switch`, TLB invalidation and loads of cr3.
- Both `vmm_find_free` versions: VmmAlloc.VirtualMemory.Alloc takes an unused range, or none, as given.
- VmmAlloc.VirtualMemory.AllocPages: sizes that are not a multiple of the frame size; the 4M-page path, by a precondition that the range holds no aligned 4M; memory beyond 4G. A table gets an address in the kernel's half, from a parameter, and its own mapping there, which may need a table in turn, is not modelled.
- VmmAlloc.VirtualMemory.AllocPages: that nothing changes on failure is stated for ranges where no table was there with nothing in it; such a table goes with the cleanup.
- VmmAlloc.VirtualMemory.AllocPages: with failure noticed, whether an allocation without enough frames for its pages and tables is undone or reported as a success depends on where free frames lie next to each other; it is stated by whether a table could not be had, with conditions on the start for frames in a row, for enough frames, and for ranges that have all tables. VmmAlloc.VirtualMemory.PmmAlloc gives the place of every chunk.
- BootMap.Boot: memory maps of the boot loader and the position of the kernel image are parameters; the end of the bitmaps lies below 1G.
- IdAlloc.IdAllocator.Alloc: counters within 65536 of 4G, where sizes wrap around; static allocators, which never grow; `idalloc_deinit`; after the bitmap was lost, that its address is handed out again by the heap, so that `realloc` takes it for a live one.
- Scheduler.Scheduler.EvaluateYield: what the hook does to the threads.
- Scheduler.Scheduler.Create: stacks and IDs of threads, processes and their lists; switching page directories with the thread; interrupts are taken as disabled where the code disables them.
- Ansi.Terminal.SetColour: a parameter string that ends in 38 or 48 makes the code read beyond it; the model reads nothing there. Palette fallbacks and the packing of colour components are not modelled.
- Ansi.Terminal.Write: cursor and erase sequences are passed on with their parameters, not interpreted.
- VgaText.MoveDown: the branch for a destination after the source, which counts up and ends only for at most one byte (libc/src/string/memmove.c:9-14); cells are moved as wholes, not as two bytes.
- VgaText.Teletype.Put: the hardware cursor, and a screen without a buffer.
- Drivers for serial ports, timers and interrupts, ACPI, descriptor tables and boot assembly.
