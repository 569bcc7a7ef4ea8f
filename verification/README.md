# Verified model of QEMU's memory, block, migration, dump and TLB cores

This project models five C files of QEMU and proves what they promise about whole runs.

**Physical memory dispatch** (`exec.c`). A memory map update starts with an empty radix tree
(`mem_begin`), adds disjoint sections in any order (`mem_add`, which cuts each one at page boundaries
into sub-page and whole-page pieces), and ends with `mem_commit`, which compacts the tree by skipping
levels with a single child. The compacted tree no longer checks the skipped index bits. The main result
is `Dispatch.Rebuild`: afterwards every address is answered by the one piece of the section that contains
it, with the same offset into the region, or by the unassigned section if there is none. The tree's
depth, fan-out and the page size stay symbolic. Modules `Radix`, `PageMap`, `PageFill`, `PageCompact`,
`Sections`, `Register`, `Cutting`, `Dispatch`. The list of RAM blocks is `RamList`.

**Block layer** (`block.c`). `Serialise` is the protocol of tracked requests as a state machine over the
points where a coroutine may switch: no two conflicting requests are ever past their wait together, nobody
waits for a waiter, and without new arrivals every schedule ends all requests within a bound. `Rmw` is the
read-modify-write cycle around an unaligned write, with everything that may fail in it. `SerialWrites`
puts both together: requests take turns at every wait and at every read or write of the device, on a disk
that grows or has a fixed size, and the disk is always what carrying out the writes one after the other
leaves, so no padding undoes another request's write; every read sees the disk after a first part of that
order. Which writes and reads these are is said in terms of the moves of the run alone. `Multiwrite` is
the merging of a batch of writes and its completion, `CommitImage` the commit of an overlay into its
backing file.

**RAM migration** (`arch_init.c`). Guest writes, dirty log, migration bitmap, scan cursor, delta cache,
records sent and destination memory are one state. `Migration`, `MigrationScan`, `MigrationOrder`,
`MigrationSave` and `MigrationSync` prove what each operation keeps, `MigrationRun` what setup, a poll, a
round and completion do. `MigrationTrace.Migrate` is a whole migration with guest writes, polls and rounds
in any order. Every page ends the same on both sides, except possibly one, the last page of the last
block; if the guest never writes that page, all of RAM arrives. The exception is real. In the bulk stage
the search starts after the cursor page, and the test for the end of the round comes after a bit has been
cleared; when the page under the cursor is the only one marked, its bit is cleared and it is not sent,
although the comment above `ram_find_and_save_block` says that nothing sent means nothing dirty.
`MigrationTrace.LosingRun` is such a migration from setup to completion, and `MigrationTrace.DeliversIff`
says exactly which migrations are: those with a search that begins in that state while the page differs,
and no later write to it. The state field `lost` only follows that page through the proofs; the code has
nothing like it. `Xbzrle` is the delta encoding. `RamStream` and `RamPeers` are the byte stream between
saver and loader, and `MigrationStream.MigrateOverStream` is the whole way: the bytes of a migration, read
by a loader with the same blocks in any order and its own memory, leave there what the migration says the
destination has.

**Guest memory dump** (`dump.c`). `DumpElf` builds the file from its first header to its last block and
proves that headers and notes end exactly at `memory_offset`, and that the offset and size in every program
header point at the bytes `dump_iterate` writes there, which is the meaning of p_offset and p_filesz in the
Program Header section of chapter 5 of the System V gABI. `DumpBitmap` and `DumpPages` do the same for the
page bitmaps and page descriptors of the kdump format, and `Kdump` puts them in one file: headers, both
bitmaps, descriptors and data stand in it together. `FileImage` is the file that writes at offsets make, and
`Flattened` the byte stream that they are sent as, from which rearranging gives that file again.

**TLB** (`cputlb.c`). `Tlb`, on 64-bit vectors, proves that one address and mask cover every large page
added since the last full flush, that nothing maps a page after it was flushed, and which accesses a new
entry lets through and which it sends to the I/O path. The bit facts are in module `Masks` of the same
file.

State that the C code updates in place is held in the fields of classes, or in a state value that methods
take and return where several operations share it. I/O errors, what uninitialised buffers hold, what the
reads of a page see while the guest writes it, and what memory allocation allows are parameters.

Two more properties turned out not to hold for all inputs. `multiwrite_merge` drops the tail of a request
when the next one starts inside it and ends before it (`Multiwrite.ShortInsideLong`);
`Multiwrite.MergeFaithfulIff` gives the exact condition under which merging changes nothing, whatever the
requests carry. And `address_space_translate_internal` limits a length by the offset in the piece of a section
that it found, not in the region. `Dispatch.Overrun` is an access whose length then passes the end of its
region, and `Dispatch.AddressSpaceDispatch.Translate` says exactly, in terms of the section as it was added,
the address and the length, which accesses end inside.

## Model

| member | source | states |
|---|---|---|
| Dispatch.AddressSpaceDispatch.NodeReserve | QEMU/qemu/exec.c:152-159 | after a reservation there is room for that many more nodes, and no room is given up |
| Dispatch.AddressSpaceDispatch.NodeAlloc | QEMU/qemu/exec.c:161-174 | with room reserved, the new node is the next one, is never the nil pointer, and has only empty entries; the other nodes stay |
| Dispatch.AddressSpaceDispatch.EnsureNode | QEMU/qemu/exec.c:185-196 | the entry then points to a node, a blank one if it had none, and nothing outside the entry changes |
| Dispatch.AddressSpaceDispatch.SetEntry | QEMU/qemu/exec.c:198-208 | one slot: exactly the pages of the run that lie in it find the leaf, and at most the budget of nodes is used |
| Dispatch.AddressSpaceDispatch.SetSlots | QEMU/qemu/exec.c:197-208 | the loop over the slots of a node fills exactly the pages of the run below it |
| Dispatch.AddressSpaceDispatch.SetLevel | QEMU/qemu/exec.c:176-209 | below an entry exactly the pages of the run that it covers find the leaf, every other walk is unchanged, and the nodes used stay within the budget |
| Dispatch.AddressSpaceDispatch.PageSet | QEMU/qemu/exec.c:211-219 | for every start and length exactly the pages of the run find the leaf, and at most 2 * P_L2_LEVELS - 1 nodes are allocated, so the reservation suffices |
| PageFill.SpentGrows | QEMU/qemu/exec.c:176-219 | the node budget adds up over the slots of a node: only the first and the last slot of a run are descended into |
| PageCompact.RedirectWidens | QEMU/qemu/exec.c:252-271 | skipping a node with a single child keeps every walk that found something and lets others find only what the single child's pages find |
| PageCompact.WalkPeriodic | QEMU/qemu/exec.c:289-297 | a walk reads only the digits of its own levels, so equal lower digits give equal results |
| PageCompact.WidenedTrans | QEMU/qemu/exec.c:224-272 | widening by one compaction after another is a widening |
| PageCompact.RedirectPacked | QEMU/qemu/exec.c:258-271 | an entry redirected to the target of its only child leaves nothing more to skip, if the child did not |
| Dispatch.AddressSpaceDispatch.CompactChildren | QEMU/qemu/exec.c:237-250 | compacting all children only widens walks and leaves nothing to skip below them; the count tells whether none, one or more entries are in use |
| Dispatch.AddressSpaceDispatch.Compact | QEMU/qemu/exec.c:224-272 | the tree stays well formed, nothing outside the entry changes, and walks only widen; no step of any walk below can be skipped any more, within the bits of the skip field |
| Dispatch.AddressSpaceDispatch.CompactAll | QEMU/qemu/exec.c:274-281 | over the whole map compaction only widens walks, and leaves none with a step to skip |
| Sections.StrangerRejected | QEMU/qemu/exec.c:299-304 | a section found through a dropped digit does not cover the address, so the range test rejects it |
| Sections.CompactionInvisible | QEMU/qemu/exec.c:224-305 | for every well-formed map and every address, the lookup before and after compaction is the same |
| Sections.FindIsPage | QEMU/qemu/exec.c:283-305 | before compaction the range test never rejects what the walk finds |
| Sections.MapExact | QEMU/qemu/exec.c:283-327 | under the map invariant every address is answered by the section that contains it, sub-pages included, or by the unassigned one |
| Register.FreshPagesFree | QEMU/qemu/exec.c:933-943 | the pages of a section apart from all others are unassigned, so no leaf or container is overwritten |
| Register.FreshSmallPage | QEMU/qemu/exec.c:902-930 | the page of a fresh small section is unassigned or already holds a container, as the assertion demands |
| Register.PagedAdd | QEMU/qemu/exec.c:933-943 | registering unassigned whole pages keeps the section table, page and sub-page invariants |
| Register.SmallAdd | QEMU/qemu/exec.c:902-930 | registering a small section in its page's container keeps the invariants and every other byte's owner |
| Dispatch.AddressSpaceDispatch.SectionAdd | QEMU/qemu/exec.c:862-879 | the section gets the next number, and the call fails exactly when the table is full |
| Dispatch.AddressSpaceDispatch.SubpageRegister | QEMU/qemu/exec.c:1742-1760 | exactly the bytes start to end belong to the section, or -1 and no change when an index is outside the page |
| Dispatch.AddressSpaceDispatch.SubpageInit | QEMU/qemu/exec.c:1762-1780 | a new container all of whose bytes are unassigned; the others stay |
| Dispatch.AddressSpaceDispatch.AddPages | QEMU/qemu/exec.c:933-943 | a section of unassigned whole pages, a container or a device, gets the next number and its pages, and the table, page and sub-page invariants are kept |
| Dispatch.AddressSpaceDispatch.RegisterSubpage | QEMU/qemu/exec.c:902-930 | the section is added, with a container for its page if it had none, and the whole map invariant is kept |
| Dispatch.AddressSpaceDispatch.RegisterMultipage | QEMU/qemu/exec.c:933-943 | the run of whole pages is added and the whole map invariant is kept |
| Dispatch.AddressSpaceDispatch.AddHead | QEMU/qemu/exec.c:945-957 | the part before the first page boundary is registered, if the section does not begin at one, and the rest is page aligned |
| Dispatch.AddressSpaceDispatch.AddFront | QEMU/qemu/exec.c:958-975 | one turn registers a non-empty front of what remains and leaves the rest page aligned |
| Dispatch.AddressSpaceDispatch.MemAdd | QEMU/qemu/exec.c:945-976 | any section apart from those added is added as a whole by its pieces, with at most five entries of the section table, or that table is full |
| Dispatch.AddressSpaceDispatch.constructor | QEMU/qemu/exec.c:1813-1831 | the empty map with its four dummy sections meets the invariant |
| Dispatch.AddressSpaceDispatch.Commit | QEMU/qemu/exec.c:1833-1847 | no lookup changes, every lookup is then exact for the sections added, and none makes a step that could be skipped |
| Dispatch.AddressSpaceDispatch.PageFind | QEMU/qemu/exec.c:283-305 | the loop with skips computes the walk followed by the range test |
| Cutting.ExactAnswers | QEMU/qemu/exec.c:314-346 | an exact lookup answers with the piece, before, in or behind the run of whole pages, of the unique added section that contains the address |
| Cutting.PieceDetermined | QEMU/qemu/exec.c:945-976 | where a section is cut depends on its address and size alone, so an address determines its piece |
| Cutting.FrontPiece | QEMU/qemu/exec.c:945-976 | exactly the addresses before the first cut of a section that starts its region are in a piece that starts the region |
| Dispatch.AddressSpaceDispatch.Translate | QEMU/qemu/exec.c:314-346 | after a commit every address gets the piece of the section that contains it and its offset in that region, or the unassigned section and its own value as offset; the length is the smaller of what was asked and what the offset in the piece leaves of the region's size, and ends inside the region exactly if the address is before the first cut of a section that starts its region, or the access fits |
| Dispatch.Overrun | QEMU/qemu/exec.c:336-344 | an access to a region of two pages less one byte whose length passes the end of the region |
| Dispatch.Rebuild | QEMU/qemu/exec.c:1813-1847 | begin, any disjoint sections, commit: the result answers every address exactly, unless the section table overflowed, which n sections cannot do while 5 * n + 4 is below its size |
| RamList.GapFits | QEMU/qemu/exec.c:1115-1127 | the gap computed behind a block is the longest run that stays in the ram address space and ends before the next block |
| RamList.FindRamOffset | QEMU/qemu/exec.c:1105-1138 | 0 for the empty list; otherwise the end of the first block behind which the run fits and no less room would do, and the abort exactly when the run fits behind no block: it would pass the end of the ram address space or the start of a block |
| RamList.FitIsApart | QEMU/qemu/exec.c:1105-1138 | a block at that offset overlaps no other |
| RamList.RAMList.Add | QEMU/qemu/exec.c:1228-1267 | blocks stay disjoint and sorted by length, exactly the new one is added at a best fit, the version moves on; on the abort list, cache and version stay |
| RamList.RAMList.Free | QEMU/qemu/exec.c:1371-1400 | exactly the block at the address goes, with the cache and the version; without one nothing changes |
| RamList.RAMList.GetRamBlock | QEMU/qemu/exec.c:747-768 | the cached lookup returns the block that contains the address, as the full scan does, and none exactly if no block does |
| Serialise.OverlapsShares | QEMU/qemu/block.c:2432-2444 | ranges overlap exactly if they have a byte in common, or an empty one lies inside the other |
| Serialise.EarlyReturnSound | QEMU/qemu/block.c:2446-2456 | when the counter is zero, no two requests conflict |
| Serialise.MarkedRange | QEMU/qemu/block.c:2383-2396 | marking widens a new request to the whole blocks around it and no further |
| Serialise.MarkIdempotent | QEMU/qemu/block.c:2383-2396 | marking again for the same alignment changes nothing |
| Serialise.StepKeepsInv | QEMU/qemu/block.c:2349-2488 | arrival, resumption, a repeated wait and the end of a request all keep the protocol invariant |
| Serialise.NoConflictingPair | QEMU/qemu/block.c:2349-2488 | after any run, no two overlapping requests of which one is serialising are both past their wait, a request waits only for one that it so conflicts with, and the counter equals the number of serialising requests; the requests are those that the steps made arrive and did not finish, each with the range of its arrival |
| Serialise.RecheckIsIdle | QEMU/qemu/block.c:3302-3305 | a request past its wait never waits again, which the assertions rely on |
| Serialise.NobodyWaitsForAWaiter | QEMU/qemu/block.c:2461-2483 | whom a request waits for is not waiting itself and can end, so there is no cycle |
| Serialise.Drains | QEMU/qemu/block.c:2446-2488 | from every reachable state some schedule ends every request |
| Serialise.SchedulesEnd | QEMU/qemu/block.c:2446-2488 | without new arrivals no order of resuming and ending n requests takes more than n * n + n steps |
| Serialise.EndIsEmpty | QEMU/qemu/block.c:2446-2488 | when no such step is left every request has ended |
| Serialise.BlockDevice.TrackedRequestBegin | QEMU/qemu/block.c:2362-2381 | the request is put in front of the list, not serialising, with its own range |
| Serialise.BlockDevice.MarkRequestSerialising | QEMU/qemu/block.c:2383-2396 | counts the request once and widens its range |
| Serialise.BlockDevice.ScanRequests | QEMU/qemu/block.c:2446-2488 | one pass over the list waits for a conflicting request that is not itself waiting, or returns when there is none |
| Serialise.BlockDevice.TrackedRequestEnd | QEMU/qemu/block.c:2349-2357 | the request leaves the list and the counter, and the waiters can move |
| Serialise.BlockDevice.StartRequest | QEMU/qemu/block.c:3364-3385 | a request that does not wait conflicts with no request past its wait |
| Serialise.BlockDevice.ResumeRequest | QEMU/qemu/block.c:2446-2488 | the loop taken up after a wait keeps the invariant |
| Rmw.TrackedRange | QEMU/qemu/block.c:3380-3435 | whichever halves were padded, the tracked request covers the padded write |
| Rmw.RoundedInside | QEMU/qemu/block.c:3120-3150 | rounding outward stays aligned to sectors and inside a disk of whole blocks |
| Rmw.Image.CheckByteRequest | QEMU/qemu/block.c:2659-2683 | a request passes exactly if it is not too long, there is a medium, and it lies on the disk or the disk grows |
| Rmw.Image.AlignedPreadv | QEMU/qemu/block.c:3018-3104 | every byte on the disk is the disk's and every byte past its end is zero where the code fills zeros in; it fails exactly if the driver's read does, or the length query where zeros are filled in |
| Rmw.Image.Preadv | QEMU/qemu/block.c:3109-3178 | any offset and length read exactly those bytes, zeros past the end of a growing disk, or the error that the request checks or the failing read give |
| Rmw.Image.Chunk | QEMU/qemu/block.c:3225-3246 | a chunk is as long as the limits allow: up to the next multiple of the alignment if it starts between two, else up to the last one, and never more than the largest size |
| Rmw.Image.WriteZeroes | QEMU/qemu/block.c:3214-3282 | the chunks write zeros to exactly the run of sectors, as far as a disk of fixed size reaches; it fails exactly if one of the chunks does, and then changes nothing outside the run |
| Rmw.Image.AlignedPwritev | QEMU/qemu/block.c:3287-3343 | succeeds exactly if notifiers, write and flush do; once written, the disk is the old one with the data, grown or, if its size is fixed, cut at its end; in any case nothing outside its range changes, and nothing at all if a notifier refuses; the assertions about the tracked request hold |
| Rmw.Image.PadHead | QEMU/qemu/block.c:3380-3409 | the head block's bytes before the data come from the disk; it fails exactly if the needed read does |
| Rmw.Image.PadTail | QEMU/qemu/block.c:3411-3443 | the tail block's bytes after the data come from the disk, also when head and tail share a block; it fails exactly if the needed read does |
| Rmw.Image.Pwritev | QEMU/qemu/block.c:3348-3465 | success exactly if the checks, the needed reads and the padded write succeed; when the data were written exactly the bytes of the request changed, and a disk of fixed size keeps its length also if it ends inside the last block; a failed write is confined to its blocks, and without a write nothing changes |
| SerialWrites.BufferExact | QEMU/qemu/block.c:3389-3453 | writing the padded blocks leaves what the write leaves alone, as long as the padding is what the disk shows |
| SerialWrites.AloneExact | QEMU/qemu/block.c:3348-3465 | a write carried out alone changes exactly its bytes of what reads show, past the end of the disk too |
| SerialWrites.BlocksApart | QEMU/qemu/block.c:2446-2488 | two requests past their wait, one of them padded, have no block in common |
| SerialWrites.OthersStay | QEMU/qemu/block.c:3302-3324 | a write of one request's blocks, whole or torn, leaves what any other request past its wait has read as the disk shows it |
| SerialWrites.MoveKeeps | QEMU/qemu/block.c:3348-3465 | arrival of a read or write, resumption, head read, tail read, write, torn write, answer to a read and end of any request keep the invariant |
| SerialWrites.WriteGoesOn | QEMU/qemu/block.c:3364-3453 | in every state that the moves reach, what is left to do for a write past its wait can be done next, whatever the others are at, and at the end of at most two reads the write changes exactly its bytes |
| SerialWrites.PaddedExclusive | QEMU/qemu/block.c:2446-2488 | a padded write past its wait shares no block with any other read or write past its wait |
| SerialWrites.PlayHistory | QEMU/qemu/block.c:3109-3465 | in every run the request with number n is that of the n-th move that starts one, with its offset and data or length; the log has the writes in the order of their moves, and the k-th answer is that of the k-th answering move, for a read of its offset and length, after the writes that ended before |
| SerialWrites.SerialOrder | QEMU/qemu/block.c:3109-3465 | after any interleaving, on a growing disk or one of any fixed size, the disk is that of the writes carried out one after the other, each once, in the order of the log; every answer to a read is what the disk holds after a first part of that order, zeros past its end, later answers after no shorter part; writes, order and reads are those of the moves, up to the first that cannot happen |
| Multiwrite.PlaceRequest | QEMU/qemu/block.c:4475-4514 | one turn in place joins the request to the last one kept, if it touches and the vectors fit, or keeps it as the next |
| Multiwrite.Merge | QEMU/qemu/block.c:4464-4518 | whatever sorted order the sorting leaves, the array's front is the merge of the requests in that order |
| Multiwrite.VectorsFit | QEMU/qemu/block.c:4483-4491 | no merged vector has more than IOV_MAX pieces |
| Multiwrite.MergedParted | QEMU/qemu/block.c:4475-4491 | two neighbours left by the merge have a gap between them, or the limit on the vector parted them |
| Multiwrite.MergePreserves | QEMU/qemu/block.c:4464-4518 | when nothing is lost, the merged requests in order leave every byte as the sorted requests in order |
| Multiwrite.MergeFaithfulIff | QEMU/qemu/block.c:4464-4518 | merging keeps every byte, whatever the requests carry, exactly if no joining request ends before the one it joins without a later one writing what lies between |
| Multiwrite.ShortInsideLong | QEMU/qemu/block.c:4478-4507 | a batch of two requests whose merge loses a sector |
| Multiwrite.AnyOrder | QEMU/qemu/block.c:4566-4574 | unless the limit on the vector kept two requests apart, the merged ones leave the same in every order in which they may be carried out |
| Multiwrite.CallbacksOnce | QEMU/qemu/block.c:4413-4441 | after the last merged request each callback has fired exactly once, with the first error, and none before |
| Multiwrite.MultiwriteCB.Complete | QEMU/qemu/block.c:4426-4441 | one completion keeps the first error and fires the callbacks exactly when it is the last |
| Multiwrite.AioMultiwrite | QEMU/qemu/block.c:4534-4577 | without a medium every request gets the error and nothing is submitted; otherwise exactly the merged requests are, with one record for all callbacks |
| Multiwrite.Multiwrite | QEMU/qemu/block.c:4413-4577 | a batch from submission to its last completion: every callback once with the first error, and, when nothing is lost, every byte as the sorted requests leave it |
| CommitImage.Overlay.IsAllocated | QEMU/qemu/block.c:4067-4075 | the error, or a run of sectors in one state, at least one and as long as state, limit and driver allow |
| CommitImage.Overlay.CopyPresent | QEMU/qemu/block.c:2266-2285 | for any allocation pattern, chunking and failures, torn writes too, the backing file changes only where the overlay has its own sector; success, exactly if every turn succeeds, copies all of them |
| CommitImage.Overlay.CopyAll | QEMU/qemu/block.c:2266-2285 | so the contents read through the overlay stay, and success, exactly if all queries made and all reads and writes succeed, leaves them in the backing file |
| CommitImage.CopiesAll | QEMU/qemu/block.c:2266-2285 | all turns of the copy loop succeed exactly if the queries made and every sector the overlay holds do |
| CommitImage.Overlay.Commit | QEMU/qemu/block.c:2221-2322 | the contents read through the overlay never change; success, with its exact condition, leaves the backing file alone showing them |
| Xbzrle.UlebRoundTrip | QEMU/qemu/util/cutils.c:490-517 | every 14-bit length decodes to itself with its own length |
| Xbzrle.EncodeBuffer | QEMU/qemu/xbzrle.c:26-126 | unchanged exactly if the pages are equal; otherwise an encoding of the difference that fits, or overflow only if no encoding fits with two bytes to spare |
| Xbzrle.DecodeBuffer | QEMU/qemu/xbzrle.c:128-175 | the loop that changes the page in place computes the decoding and returns where the last run ends, behind which nothing changed; -1 exactly if there is no decoding |
| Xbzrle.RoundTrip | QEMU/qemu/xbzrle.c:26-175 | decoding any encoding of a page against its old contents gives the page |
| Migration.DeltaLoads | QEMU/qemu/arch_init.c:966-999 | a delta against what the destination holds brings it to the new contents |
| Migration.CacheInsert | QEMU/qemu/page_cache.c:154-180 | an insertion that succeeds stores these contents under the page, one that fails changes nothing, and no other slot changes; it fails only for an empty slot without memory |
| Migration.DeliverReplayed | QEMU/qemu/arch_init.c:1042-1152 | sending a further record keeps the destination what loading the records sent, in order, makes of its first memory |
| Migration.SaveXbzrlePage | QEMU/qemu/arch_init.c:355-414 | the destination gets the page unless the guest wrote it meanwhile, before the last stage the cache entry equals the destination's copy, and the page is not sent exactly if the cache has these contents; otherwise one record is |
| Migration.RamSavePage | QEMU/qemu/arch_init.c:570-637 | the same for zero pages, deltas and plain pages: a zero record for a page of zeros, the page itself without deltas, and nothing exactly if the cache has these contents |
| MigrationScan.NextBit | QEMU/qemu/arch_init.c:425-431 | the first set bit from a position on |
| MigrationScan.AllCleanMeans | QEMU/qemu/arch_init.c:657-671 | every block clean means no page marked |
| MigrationScan.RoundDone | QEMU/qemu/arch_init.c:657-671 | a scan that came round to where it began has passed every page |
| MigrationScan.PageDone | QEMU/qemu/arch_init.c:433-436 | clearing a bit and saving the page keeps every page marked or equal, the cache true and the dirty count exact |
| MigrationOrder.Stops | QEMU/qemu/arch_init.c:657-683 | a search that cleared only what it passed and stops at a page has cleared exactly the marks up to that page, in the order of the search |
| MigrationSave.RoundEnds | QEMU/qemu/arch_init.c:659-663 | at the end of a round nothing is marked, or the cursor page was the only one marked |
| MigrationSave.CursorMoves | QEMU/qemu/arch_init.c:676-683 | in the bulk stage every page after the cursor stays marked |
| MigrationSave.FindAndSaveBlock | QEMU/qemu/arch_init.c:646-686 | the search ends and saves every page whose bit it clears. In every stage it sends at most one page: it clears exactly the marks from the cursor up to that page in the order of the search, the cursor ends on it, one record is sent for it, and no other page changes at the destination. It sends nothing only when nothing is left marked; the exception is exactly the lone cursor page of the bulk stage, and while pages lie ahead of the cursor the bulk stage sends the next one |
| MigrationSync.SyncWords | QEMU/qemu/arch_init.c:458-473 | word by word, exactly the logged pages of the words move to the bitmap, and the new marks are counted |
| MigrationSync.SyncPages | QEMU/qemu/arch_init.c:474-485 | page by page, the same for a run of pages |
| MigrationSync.SyncRange | QEMU/qemu/arch_init.c:453-486 | on either path exactly the logged pages from the block's start to at least its end move to the bitmap, and exactly the new marks are counted |
| MigrationSync.MovesKeepInv | QEMU/qemu/arch_init.c:440-486 | moving marks keeps the migration invariant, with the dirty count equal to the marked pages of blocks |
| MigrationSync.Sync | QEMU/qemu/arch_init.c:491-523 | no page of a block stays in the log, no mark is lost or made up, and the invariant holds |
| MigrationRun.LastRamPage | QEMU/qemu/exec.c:1140-1149 | the least bound of all blocks |
| MigrationRun.PagesOfCount | QEMU/qemu/arch_init.c:818-828 | the sum of block lengths is the number of pages |
| MigrationRun.CursorPageOnlyExactly | QEMU/qemu/arch_init.c:427-436 | the state in which a page is lost, in terms of cursor, block list, bitmap and dirty count |
| MigrationRun.RamMigration.constructor | QEMU/qemu/arch_init.c:770-832 | every page is marked, the count is the number of pages, and the invariant holds |
| MigrationRun.RamMigration.SavePending | QEMU/qemu/arch_init.c:951-964 | the bytes of the marked pages, after a sync exactly if fewer than the limit were known |
| MigrationRun.RamMigration.Iterate | QEMU/qemu/arch_init.c:852-919 | a round of any length with guest writes in between keeps the invariant, changes at the destination only pages marked at first, and loses exactly the lone cursor page if it starts in that state, unless the guest writes it; the bulk stage moves on by one page a turn |
| MigrationRun.RamMigration.Complete | QEMU/qemu/arch_init.c:921-949 | with the guest stopped, nothing is marked, all pages not lost end equal, and one more is lost exactly if the sync leaves the lone cursor page |
| MigrationTrace.RunPhase | QEMU/qemu/arch_init.c:852-964 | each guest write, poll or round is a step of the trace |
| MigrationTrace.LostExactly | QEMU/qemu/arch_init.c:646-686 | a page is lost at a point of a run exactly if an earlier round began with it as the lone cursor page and the guest did not write it since |
| MigrationTrace.DeliversIff | QEMU/qemu/arch_init.c:770-964 | a migration delivers all of RAM exactly if none of its searches begins with the lone cursor page while that page differs and is not written again |
| MigrationTrace.LoneIsLast | QEMU/qemu/arch_init.c:427-436 | the lone cursor page is the last page of the last block, which then has more than one |
| MigrationTrace.QuietDelivers | QEMU/qemu/arch_init.c:770-964 | if the guest never writes the last page, all of RAM arrives, whatever else it writes and when |
| MigrationTrace.Migrate | QEMU/qemu/arch_init.c:770-964 | after any migration the source holds what the guest wrote, every page but the last of the last block is the same on both sides, and so is that one if it is not written or, exactly, if no search loses it; the destination is what loading the records sent makes of its first memory |
| MigrationTrace.LosingRun | QEMU/qemu/arch_init.c:646-686 | for every RAM list whose last block has two pages or more and all memories, a run from setup through the bulk stage, one write to the last page and completion ends with that page different |
| RamStream.HeaderParts | QEMU/qemu/arch_init.c:313 | offset, continuation and flag packed in one word come apart again |
| RamStream.RecordRead | QEMU/qemu/arch_init.c:1001-1029 | a record is read back with its offset and body in the loader's block of the same name |
| RamStream.AgreeAt | QEMU/qemu/arch_init.c:581 | what the loader remembers always agrees with `last_sent_block` |
| RamStream.LoadsFound | QEMU/qemu/arch_init.c:1054-1145 | the loop carries out the records it finds in order on any kind of memory, and fails exactly if carrying out one of them does |
| RamStream.SectionLoads | QEMU/qemu/arch_init.c:1042-1152 | one call carries out one round's records where they were meant, stops after the end mark, and fails exactly if one of them cannot be carried out |
| RamStream.ListRead | QEMU/qemu/arch_init.c:1066-1097 | the block list is consumed exactly, or refused exactly if the loader lacks a block of the same name and length |
| RamStream.SetupLoads | QEMU/qemu/arch_init.c:1060-1097 | the setup section is read to its end or refused, and carries out nothing |
| RamStream.StreamLoads | QEMU/qemu/arch_init.c:1042-1152 | there are records meant for the loader's blocks, one for each sent, and the whole stream carries out exactly these, for any order of the loader's blocks |
| RamStream.StreamRefused | QEMU/qemu/arch_init.c:1066-1097 | a loader that lacks a block of the same name and length refuses the stream and carries out nothing |
| RamPeers.RamSaver.constructor | QEMU/qemu/arch_init.c:834-847 | the setup section is total, block list and end mark |
| RamPeers.RamSaver.SaveRound | QEMU/qemu/arch_init.c:308-323 | a round appends its records, named or continued by `last_sent_block`, and the stream stays one the loader reads |
| RamPeers.RamLoader.RamLoad | QEMU/qemu/arch_init.c:1042-1152 | the loop computes the load that the theorems speak of, on the loader's memory and with deltas decoded |
| RamPeers.RamLoader.LoadStream | QEMU/qemu/arch_init.c:1042-1152 | one call after the other computes the calls that the theorems speak of |
| MigrationStream.CarryMirrors | QEMU/qemu/arch_init.c:1101-1135 | carrying out a record of the stream does to the loader's memory what the record sent does to the pages of the destination |
| MigrationStream.StreamLeavesDestination | QEMU/qemu/arch_init.c:770-1152 | whatever rounds the records sent were cut into, loading the stream leaves the memory that loading the records leaves |
| MigrationStream.MigrateOverStream | QEMU/qemu/arch_init.c:770-1152 | a migration over its byte stream, its records in any rounds: the loader's memory ends as the destination the migration speaks of, which is the source but for the last page, and all of it if the guest does not write that page |
| DumpElf.DumpState.GetOffsetRange | QEMU/qemu/dump.c:398-457 | an address is stored exactly if it is dumped; its offset is its place in the file and its size ends with the mapping or the dumped part of the block |
| DumpElf.DumpState.constructor | QEMU/qemu/dump.c:1580-1620 | the file header counts the program headers, or points to the section header when they are too many for it; `memory_offset` is the size of headers, section header and notes for the ELF class and the number of mappings |
| DumpElf.DumpState.DumpBegin | QEMU/qemu/dump.c:498-586 | headers, section header and notes end exactly at `memory_offset`, with every program header in its place and right |
| DumpElf.DumpState.WriteElfLoads | QEMU/qemu/dump.c:459-495 | the headers are right mapping by mapping, stand in the file one after the other, and are as many as the index allows |
| DumpElf.DumpState.WriteMemory | QEMU/qemu/dump.c:372-395 | pages and the rest append exactly the memory of the range |
| DumpElf.DumpState.GetStartBlock | QEMU/qemu/dump.c:1431-1457 | the first block with a dumped part and where that begins; fails exactly if there is none |
| DumpElf.DumpState.GetNextBlock | QEMU/qemu/dump.c:593-618 | the next block with a dumped part, and none left exactly when everything is written |
| DumpElf.DumpState.DumpIterate | QEMU/qemu/dump.c:621-648 | the file is the dumped parts of all blocks one after the other |
| DumpElf.HeaderTrue | QEMU/qemu/dump.c:398-457 | in the finished file the bytes a header points at are the memory it describes |
| DumpElf.Dump | QEMU/qemu/dump.c:1494-1620 | with or without a filter, the file is headers and notes up to `memory_offset`, then the dumped memory; every program header in it is true of it, and every mapping has one, up to the largest number that can be counted |
| DumpBitmap.GetNextPage | QEMU/qemu/dump.c:1027-1071 | pages come in ascending order, none left out, and the end comes after the last |
| DumpBitmap.BitmapFile.SetDumpBitmap | QEMU/qemu/dump.c:970-1019 | the file holds both bitmaps up to the page's buffer, byte by byte, and the buffer the rest; nothing outside the two bitmaps changes |
| DumpBitmap.BitmapEnds | QEMU/qemu/dump.c:1544-1546 | the bitmap length ends with the buffer of the last page, so the copies do not overlap |
| DumpBitmap.WriteDumpBitmap | QEMU/qemu/dump.c:1073-1125 | in both bitmaps, over their whole length, bit p is set exactly if page p is in some block; the pages are counted, and nothing outside the bitmaps changes |
| DumpPages.DataCache.constructor | QEMU/qemu/dump.c:1127-1135 | an empty cache for its offset |
| DumpPages.DataCache.WriteCache | QEMU/qemu/dump.c:1137-1167 | what was put in is, in order, in the file and the buffer; nothing else in the file changes, and nothing at all as long as the data fit the buffer; a sync brings it all to the file |
| DumpPages.OneMorePage | QEMU/qemu/dump.c:1251-1337 | a further page keeps every descriptor right |
| DumpPages.IndexUnique | QEMU/qemu/dump.c:1251-1337 | different pages have different descriptors |
| DumpPages.PageReadsBack | QEMU/qemu/dump.c:1251-1337 | whoever can undo the compression gets every page back from its descriptor and the file |
| DumpPages.WriteDumpPages | QEMU/qemu/dump.c:1204-1371 | each page's descriptor stands at its place in the enumeration and names its bytes in the file: the compressed page, with its size and the flag, exactly if the page is not zero and compression makes it shorter, else the page itself, with size PAGE_SIZE and no flag; all zero pages share one copy; nothing before the page section changes |
| FileImage.DumpFile.Write | QEMU/qemu/dump.c:707-726 | a write appends one run to the stream, and the file that the runs make has its data and is otherwise the same |
| Flattened.FlatRoundTrip | QEMU/qemu/dump.c:667-726 | rearranging the flattened stream, header, runs and end mark, gives the file that its runs make in order |
| Kdump.PagesAfterBitmaps | QEMU/qemu/dump.c:833-840 | the page section begins exactly where the second bitmap ends |
| Kdump.WriteDumpHeader | QEMU/qemu/dump.c:745-848 | main header, sub header and notes stand in their places |
| Kdump.CreateKdumpVmcore | QEMU/qemu/dump.c:1373-1428 | in the file that the stream's runs make, the headers, both bitmaps and every page's descriptor and data stand together, each as stated of it alone; if all offsets fit their words, rearranging the stream gives that file |
| Tlb.FlushTestCovers | QEMU/qemu/cputlb.c:82-99 | every address of every large page passes the flush test |
| Tlb.WidenMask | QEMU/qemu/cputlb.c:214-218 | the loop ends, with the addresses agreeing under a mask no finer than before |
| Tlb.NewPair | QEMU/qemu/cputlb.c:202-221 | the new pair covers the new page and the old area |
| Tlb.AllStayCovered | QEMU/qemu/cputlb.c:202-221 | every large page stays covered |
| Tlb.EntryForMaps | QEMU/qemu/cputlb.c:249-305 | a new entry is in its slot; each access hits it exactly if it is permitted and finds an empty field otherwise; reads, writes and code go to the I/O path exactly if the region is not plain memory, reads and writes also if the page is watched, writes also if the memory is read-only or a ROM device; exactly writes to clean writable RAM are trapped |
| Tlb.FlushSlot | QEMU/qemu/cputlb.c:101-108 | in every mode the entry of the slot is flushed exactly if it maps the page |
| Tlb.CPUTLB.Flush | QEMU/qemu/cputlb.c:51-68 | every entry is flushed and no large page is recorded |
| Tlb.CPUTLB.AddLargePage | QEMU/qemu/cputlb.c:202-221 | the page is recorded and covered with all others |
| Tlb.CPUTLB.SetPage | QEMU/qemu/cputlb.c:226-305 | exactly one entry is set, with fields and flags for exactly the permitted accesses, and a large page is recorded |
| Tlb.CPUTLB.FlushPage | QEMU/qemu/cputlb.c:82-112 | nothing maps the page in any mode; an address of a large page flushes everything, any other only its own entries |

## Left out

- Dispatch.AddressSpaceDispatch.MemAdd: the 128-bit arithmetic of section sizes; sizes are unbounded numbers, because address overflow is outside this model.
- Dispatch.AddressSpaceDispatch.Translate: the IOMMU walk and memory-mapped register access; 128-bit arithmetic is on unbounded numbers.
- RamList.RAMList.Add: host memory of a block, the dirty bitmaps' growth and Xen or KVM branches; only offsets, order, version and cache are modelled.
- Serialise.BlockDevice.ScanRequests: threads do not exist here; a coroutine switch is the boundary of a step, which is where the code may switch.
- Rmw.Image.Preadv: copy-on-read and throttling.
- Rmw.Image.AlignedPwritev: unmapping, dirty bitmaps and the highest sector written; how a write falls to the driver's own zero write or to its plain write is one write.
- Rmw.Image.Pwritev: write-zeroes requests without data; a data vector is written.
- SerialWrites.SerialOrder: a read or write of the device is one step, and reads past the end of a growing disk show zeros.
- Multiwrite.AioMultiwrite: the sorting itself, whose result is a parameter, and the flags of a request, which stay with the places of the array; the pieces of a vector are values instead of memory.
- CommitImage.Overlay.Commit: reopening the backing file read-write and back is only its possible failure; flushing is left out.
- Xbzrle.EncodeBuffer: the word-at-a-time loops; they are modelled byte by byte, and the output buffer is a sequence instead of memory written in place.
- Xbzrle.DecodeBuffer: what an encoding that is refused half way leaves in the page.
- Migration.RamSavePage: RDMA's own page transport, statistics and accounting.
- MigrationRun.RamMigration.Iterate: a change of the RAM list during migration, time limits and throttling; the end of the plan stands for the rate limit.
- MigrationRun.RamMigration.Complete: file errors.
- RamPeers.RamLoader.RamLoad: what a truncated stream or a refused delta leaves in the page it ends in, the block remembered after a refused record, and the RDMA hook, which is refused as without RDMA.
- RamPeers.RamSaver.SaveRound: the bits of a header word are added, not or-ed; they are disjoint.
- DumpElf.DumpState.WriteMemory: write errors; every write succeeds.
- DumpElf.Dump: what the bytes of ELF headers, notes and section headers mean, which are a parameter of the right sizes; paging-derived mappings, and negative lengths of a filter.
- DumpBitmap.BitmapFile.SetDumpBitmap: write errors.
- Kdump.CreateKdumpVmcore: what the bytes of headers and notes mean, which are a parameter; write errors.
- DumpPages.WriteDumpPages: compression is a parameter, as is the byte order of a descriptor; write errors.
- Tlb.CPUTLB.SetPage: the I/O TLB, the addend, the search for watchpoints and dirty bits, whose results are parameters, and the victim of a replaced entry.
- Timing, throttling and statistics everywhere, and all error texts.
- The rest of the repository: device models, translation, networking, monitor, block drivers and other block jobs, `cpus.c`, `hmp.c` and the gVM1 tree.
