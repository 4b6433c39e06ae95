# A model of the Cosmos+ OpenSSD flash translation layer

This project models the firmware of the Cosmos+ OpenSSD in `cosmos-firmware/`, with its
read-write (RW) command and its second buffer (R-Buf), and proves what its parts promise one
another. `dafny verify dfyconfig.toml` checks all of it.

From the bottom up:

* `Links` is the doubly linked list over fixed arrays the firmware uses everywhere: several lists
  share one previous and one next field per entry. Block lists, LRU lists, hash chains, request
  queues, blocking chains and way lists are all instances, so each is shown to stay a set of
  disjoint well-formed lists.
* `Die`, `Tables`, `Dies`, `Room`, `Ftl` and `Capacity` are slice maps, block lists, slice allocation
  and greedy garbage collection. The state also holds the contents of the programmed flash pages, so
  that a collection can be shown to lose nothing. A page is only ever programmed after the one before
  it. When allocation runs out of blocks is characterised by the number of valid slices on the die.
* `Buffer`, `Store`, `Slices` and `Commands` put the two write-back buffers and the command splitting
  on top. The result is that the device is a flat array of blocks: for every sequence of commands a
  read returns every block ever written as it was last written. Requests run one after another here.
* `Requests`, `Serial`, `Progress`, `Runs`, `Sync` and `Engine` are the dependency engine,
  where they do not: requests wait for their buffer, for their row address or for a reception of their
  command, and NAND and DMA completions arrive in any order, except that the operations on a block
  complete in the order of their NAND queue. Runs are sequences of events. No run gets stuck, and
  whatever order its operations complete in, they do to buffers, flash and host what they would do one
  after another as submitted.
* `Firmware` narrows the runs to those the scheduler makes: row-blocked requests are visited in whole
  scans of their die's queue, and only while the die's NAND queue is empty. `Limits` proves on such runs
  that two conditions on submissions are exactly what the engine needs.
* `Journal`, `Shadow`, `Join` and `Reuse` put the two together. A store keeps a journal of the low-level
  requests it submits. They may be submitted to the engine, and however the engine runs them, once all
  have completed the memory holds the host's array and the host has been sent what the store answered
  (`Join.DeviceAgrees`). `Reuse` is about journals in which a block is programmed again after an erase.
* `HostDma`, `DmaScan` and `RwCommand` are the host DMA completion test, the scan that retires
  requests, and the counters of the RW command.
* `ReqPool` is the request pool with its queues and counters. `Polling` is one way of a channel, from the
  start of an operation to the end of its request, and `Ways` the NAND scheduler of a channel.
* `Remap` and `Address` are bad block remapping and address arithmetic.

Numbers of dies, blocks, pages, buffer entries and request slots are arbitrary, below the 0xffff
sentinel. Virtual slice addresses are die, block and page; `Address.VsaRoundTrip` and
`Address.VorgRoundTrip` make that the same as the integers the firmware stores. What hardware does
is an input: which operation finishes next, what a register shows, what a status check answers.

Where the firmware does less than one would like, the exact limits are proved.

* A collection whose victim is the current block with all slices invalid puts that block on the free
  list while it is still being filled. `Fits` and `RunsOut` are conditions on the die whose turn it
  is, before the write. `AddrTransWrite` keeps the tables in order if and only if `Fits` holds, and
  stops at the assertion about missing blocks if and only if `RunsOut` holds, which is if and only if
  the other slices fill that die (`StopsExactly`). `StrayHappens` and `RunningOutHappens` are devices
  on which each happens.
* The dependency engine needs two conditions on submissions that it does not check. A block may be
  programmed again after an erase only once all programs before that erase are admitted
  (`LastFilled`): `CheckRowAddrDep` compares page numbers only. And a block may not be erased again
  before its last erase is admitted (`LastErased`): admitting one erase clears the flag of both, so that
  later reads no longer wait. Runs are free of deadlock, and conflicting requests complete in order, if
  and only if submissions meet both (`DeadlockFreeExactly`, `InOrderExactly`), for every number of pages
  per block up to 65530; for each there are runs of the scheduler from power on that break it alone (`CanDeadlock`,
  `CanOvertake`, `StaleRead`). The other conditions (`Orderly`) are met by what the store submits
  (`Join.MaySubmit`). The first of the two is not: as soon as a block is used again, the requests of a
  store can be run so that it is broken (`ReuseBreaks`, `StoreBreaks`), and `ReuseHappens` is a device
  that comes to that.
* The wait for a free request slot can end if and only if not all slots are held, by slice requests or by
  the code that waits (`FreesExactly`). A command is split into all its slice requests before any of
  them is transformed, so one that touches more slices than there are slots waits for ever.
* The loop that waits for all low-level requests never looks at the custom command queue. It can end if
  and only if no request stands behind one of an RW command at its buffer (`EndsExactly`,
  `TrapHappens`), and it leaves the requests of RW commands behind.
* The completion of an RW command is posted exactly once if and only if no transmission finishes as the
  last of those transformed while others are still to be transformed (`OnceExactly`). It is enough that
  all are transformed first (`CountedFirst`). `PostedTwice` is a run where it is posted twice.
* The shortcut of the completion scan is right for all completion counts if and only if the queue is in
  issue order (`StickyIsExact`). The host DMA queue always is, and so are the receptions of the custom
  queue. A transmission issued late by a scan of the custom queue keeps the order if and only if none
  behind it is issued (`IssueLate`); two issued by one scan never are in order (`LateIssueBreaks`).
* The completion test cannot tell counts apart that differ by 2^40 DMAs (`DoneExactly`,
  `CycleHidesDone`).
* The loops of the way scheduler that act on a list follow the link of a way after moving it to the end of
  another list, so each starts at most one way per round (`RunList`).

## Model

| member | source | states |
|---|---|---|
| Links.BypassKeeps | cosmos-firmware/garbage_collection.c:190-218 | unlinking an entry anywhere in a list by rewriting its two neighbours and the list ends leaves exactly the same lists, this one without the entry, whatever other lists share the links |
| Links.JoinKeeps | cosmos-firmware/address_translation.c:836-854 | linking an entry that is on no list to either end of a list leaves exactly the same lists, this one with the entry at that end |
| Links.LinkTable.PutTail | cosmos-firmware/address_translation.c:836-854 | the entry is appended to one list and no other list changes |
| Links.LinkTable.PutFront | cosmos-firmware/data_buffer.c:120-133 | the entry becomes the first of its list and no other list changes |
| Links.LinkTable.Unlink | cosmos-firmware/garbage_collection.c:190-218 | the entry leaves its list, the order of the rest is kept; an entry on no list "taken out" of an empty list changes nothing |
| Links.LinkTable.PopHead | cosmos-firmware/address_translation.c:856-893 | exactly the first entry leaves the list |
| Die.Die.OnList | cosmos-firmware/garbage_collection.c:140-218 | in every state of a die a block is on bucket k > 0 exactly when it is in use with k invalid slices, on the free list exactly when it is free and good, and bucket 0 is empty |
| Die.Die.constructor | cosmos-firmware/address_translation.c:204-214 | a die with empty lists |
| Die.Die.PutToFbList | cosmos-firmware/address_translation.c:836-854 | the block is queued last on the free list and the free count follows |
| Die.Die.GetFromFbList | cosmos-firmware/address_translation.c:856-893 | the first free block is taken, except that a normal request leaves the last one: it fails exactly when no more than the reserve is left |
| Die.Die.PutToGcVictimList | cosmos-firmware/garbage_collection.c:140-156 | the block is queued last on the bucket of its invalid count |
| Die.Die.SelectiveGetFromGcVictimList | cosmos-firmware/garbage_collection.c:190-218 | the block leaves its bucket; one with no invalid slice is on no list and nothing changes |
| Die.Die.InvalidateSlice | cosmos-firmware/address_translation.c:790-795 | one more invalid slice moves the block to the end of the next bucket |
| Die.Die.GetFromGcVictimList | cosmos-firmware/garbage_collection.c:158-187 | the victim has the most invalid slices of all blocks in use, the one queued longest among equals; none is found exactly when no block has an invalid slice |
| Die.Die.RecycleBlock | cosmos-firmware/address_translation.c:822-827 | the erased block is blank, free and last on the free list |
| Die.Die.TakePage | cosmos-firmware/address_translation.c:716-717 | hands out the next page of a block; the die stays in order exactly when the block is in use |
| Die.Die.InitBlockMap | cosmos-firmware/address_translation.c:216-242 | the free list holds exactly the good blocks, in index order |
| Tables.Injective | cosmos-firmware/address_translation.c:662-680 | no two logical slices share a virtual slice |
| Tables.UnmapKeeps | cosmos-firmware/address_translation.c:776-798 | giving up a copy keeps the invariant: forward and reverse map partly inverse, and in every block in use valid + invalid slices = pages handed out |
| Tables.OpenKeeps | cosmos-firmware/address_translation.c:691-694 | opening a free block for writing keeps the invariant |
| Tables.PlaceKeeps | cosmos-firmware/address_translation.c:670-673 | mapping a slice to the next page of the current block keeps the invariant |
| Tables.TakeOutKeeps | cosmos-firmware/garbage_collection.c:75-78 | a victim off its bucket keeps the invariant and is full unless it is the current block, so a victim with all slices invalid holds no valid one |
| Tables.LiftKeeps | cosmos-firmware/garbage_collection.c:125-126 | dropping a slice of the victim from the forward map keeps the invariant |
| Tables.EraseKeeps | cosmos-firmware/address_translation.c:801-834 | erasing a victim without valid slices that is not the current block keeps the invariant |
| Tables.EraseBreaks | cosmos-firmware/address_translation.c:801-834 | erasing the current block always breaks the invariant |
| Dies.NewDie | cosmos-firmware/address_translation.c:244-254 | two good blocks are enough to open one and keep the reserve |
| Dies.BlankInv | cosmos-firmware/address_translation.c:90-98 | with nothing mapped and blank blocks the invariant holds |
| Dies.DieArray.constructor | cosmos-firmware/address_translation.c:614-643 | all dies, each with an open block and a reserve |
| Ftl.Ftl.constructor | cosmos-firmware/address_translation.c:63-88 | the translation layer starts in order, die 0 first in turn |
| Ftl.MoveEffect | cosmos-firmware/garbage_collection.c:87-129 | moving a valid slice out of the victim keeps the maps, the contents of every logical slice and the match between handed-out and programmed pages |
| Ftl.Ftl.FindFreeVirtualSliceForGc | cosmos-firmware/address_translation.c:724-754 | with one free block the "no available block" and "page management" assertions cannot fire; the page is on a block other than the victim |
| Ftl.Ftl.MoveSlice | cosmos-firmware/garbage_collection.c:87-129 | one valid slice is copied: every logical slice keeps its contents and the victim has one valid slice less |
| Ftl.Ftl.CopyValidSlices | cosmos-firmware/garbage_collection.c:80-131 | all valid slices of the victim are moved with contents intact, by exactly two requests each, using exactly one free block and leaving a page of it |
| Ftl.Ftl.EraseBlock | cosmos-firmware/address_translation.c:801-834 | flash pages, block record and reverse entries of the block are gone and nothing else |
| Ftl.Ftl.GarbageCollection | cosmos-firmware/garbage_collection.c:71-137 | exactly when it collects, has nothing to collect, or frees the current block; a collection keeps every slice and leaves a page or a spare block |
| Ftl.Ftl.FindDieForFreeSliceAllocation | cosmos-firmware/address_translation.c:757-774 | dies take turns in cyclic order 0, 1, 2, ... |
| Ftl.EveryDieOnce | cosmos-firmware/address_translation.c:757-774 | as many allocations in a row as there are dies go to every die once |
| Ftl.Ftl.InvalidateOldVsa | cosmos-firmware/address_translation.c:776-798 | the old copy of the slice, and only that, becomes an invalid slice of its block; the mismatch branch is unreachable |
| Ftl.Ftl.MakeRoom | cosmos-firmware/address_translation.c:689-713 | one reserved block is enough: the current block has a page exactly when the die fits one, with all contents kept |
| Ftl.Ftl.FindFreeVirtualSlice | cosmos-firmware/address_translation.c:682-721 | the page handed out is the next one of the die in turn; the outcome is decided by the state before the call |
| Ftl.Ftl.AddrTransWrite | cosmos-firmware/address_translation.c:662-680 | the tables stay in order exactly when the die in turn fits a page once the old copy is given up; it stops at the assertion exactly when that die has nothing to collect; other slices keep their contents and no die loses more than one page |
| Ftl.Ftl.WriteSlice | cosmos-firmware/request_transform.c:192-224 | a slice written out of a filled buffer reads back from the flash, all others are as before, no buffer but the temporary ones has changed, and at most two requests per page of a block are submitted, the program of the page last |
| Ftl.Ftl.RoomFits | cosmos-firmware/address_translation.c:682-694 | while every die has a page left before its reserve, every slice can be written |
| Capacity.RunsOutExactly | cosmos-firmware/address_translation.c:682-713 | a die never holds more valid slices than its good blocks but one have pages, and allocation stops at the assertion exactly when it holds as many |
| Capacity.StopsExactly | cosmos-firmware/address_translation.c:662-713 | writing a slice stops at the assertion exactly when the other slices fill the die whose turn it is |
| Capacity.NeverStops | cosmos-firmware/address_translation.c:662-713 | a device with fewer mapped slices than any die alone can hold never stops there |
| Capacity.FreshRoom | cosmos-firmware/address_translation.c:682-694 | a blank die has room, before any collection, for as many slices as its good blocks but one have pages |
| Capacity.FailsOnlyFull | cosmos-firmware/garbage_collection.c:78-136 | while the current block of the die in turn holds a valid slice other than the one written, the collection does not pick it: the write fails only at the assertion |
| Capacity.StrayHappens | cosmos-firmware/garbage_collection.c:78-136 | a device of two blocks on which writing a slice twice frees the current block |
| Capacity.RunningOutHappens | cosmos-firmware/address_translation.c:682-713 | the same device stops at the assertion when a second slice is written |
| Buffer.TouchKeeps | cosmos-firmware/data_buffer.c:98-133 | moving an entry to the front keeps the list in recency order without repetition |
| Buffer.DataBuffer.constructor | cosmos-firmware/data_buffer.c:57-86 | no slice cached, all entries on the LRU list |
| Buffer.DataBuffer.OnChain | cosmos-firmware/data_buffer.c:208-262 | a hash chain holds exactly the entries whose slice address leaves its number modulo the number of entries |
| Buffer.DataBuffer.Oldest | cosmos-firmware/data_buffer.c:144-149 | the LRU list holds every entry once, and its last one is the one unused for longest |
| Buffer.DataBuffer.Find | cosmos-firmware/data_buffer.c:93-138 | walking the chain finds an entry exactly when the slice is cached |
| Buffer.DataBuffer.CheckHit | cosmos-firmware/data_buffer.c:88-142 | a hit exactly when the slice is cached; the entry becomes the most recently used |
| Buffer.DataBuffer.Allocate | cosmos-firmware/data_buffer.c:144-173 | the least recently used entry is picked, becomes the most recent and leaves its chain |
| Buffer.DataBuffer.Unchain | cosmos-firmware/data_buffer.c:231-262 | the entry leaves the chain of its slice; one never used changes nothing |
| Buffer.DataBuffer.Tag | cosmos-firmware/data_buffer.c:208-228 | the entry goes to the chain of its new slice and no slice is cached twice |
| Store.FillKeeps | cosmos-firmware/request_transform.c:386-468 | giving a clean entry to a slice nobody caches, or rewriting a slice in its own entry, keeps the buffers, maps and flash equal to the host array, no slice in two buffers |
| Store.EvictKeeps | cosmos-firmware/request_transform.c:187-228 | writing a dirty entry out and marking it clean keeps that equality |
| Store.WriteAgrees | cosmos-firmware/request_transform.c:441-454 | a partial write over contents read back, or a full write over anything, leaves the slice as the host array has it |
| Store.Served | cosmos-firmware/request_transform.c:456-497 | after a request the equality holds again and a read returns every block ever written as last written |
| Store.Store.constructor | cosmos-firmware/data_buffer_ccmd.c:9-34 | empty buffers over blank flash stand for the empty array |
| Store.Store.Evict | cosmos-firmware/request_transform.c:187-271 | a dirty entry is written out; it fails exactly when the die in turn does not fit a page |
| Store.Store.WriteOut | cosmos-firmware/request_transform.c:187-228 | a dirty entry is written out and clean, exactly when the die in turn fits a page |
| Store.Store.Probe | cosmos-firmware/request_transform.c:354-384 | the main buffer, then R-Buf; a hit exactly when one of them has the slice, whose entry becomes the most recently used |
| Store.Store.Choose | cosmos-firmware/data_buffer.c:144-173 | the least recently used entry is taken in hand; what is buffered, and whether it can be written out, is as before |
| Store.Store.Displace | cosmos-firmware/request_transform.c:396-418 | the least recently used entry of a buffer made clean; when it can be is decided beforehand |
| Store.Store.RoomToDisplace | cosmos-firmware/request_transform.c:396-418 | while every die has a page left before its reserve, either buffer can give up an entry |
| Store.Store.Retag | cosmos-firmware/request_transform.c:421-423 | the entry in hand goes to another slice, contents unchanged |
| Store.Store.Fetch | cosmos-firmware/request_transform.c:273-341 | a page is read into the entry, as the low-level read request does |
| Store.Store.Load | cosmos-firmware/request_transform.c:421-454 | the entry takes the slice, read in from flash unless all of it will be overwritten; an unmapped slice leaves the old contents |
| Store.Store.Transfer | cosmos-firmware/request_transform.c:456-472 | the blocks of the request and no others are moved |
| Store.Store.Attach | cosmos-firmware/request_transform.c:354-454 | an entry ready for the request, exactly when it hits or an entry of R-Buf for a read, of the main buffer for a write, can be displaced; the other buffer is not touched |
| Store.Store.Serve | cosmos-firmware/request_transform.c:343-497 | a slice request refines the flat array: a write changes exactly its blocks, a read returns every block ever written as last written; a read that misses goes to R-Buf and a write that misses to the main buffer, into the least recently used entry, and the other buffer is not touched; the entry used is the most recently used afterwards; served exactly when it hits or that buffer can give up an entry, always while the dies have room, for at most one page per die; a hit submits its DMA only, a miss on a clean entry no page read but the one it needs; what a read returns is what its DMA request sends |
| Commands.Execute | cosmos-firmware/request_transform.c:78-185 | an NVMe command served slice by slice refines the flat array; it is served whenever every die has a page left before its reserve for each slice the command touches, and whenever all its slices are buffered, then without using a page |
| Commands.Run | cosmos-firmware/request_transform.c:78-497 | for every sequence of commands each read answered returns every block ever written as the latest write before it left it, also those before a failure; all commands are served while the dies have a page for each slice touched; answers are what the DMA requests send |
| Commands.LaidTwice | cosmos-firmware/request_transform.c:150-152 | two consecutive pieces written one after the other are the whole written at once |
| Slices.ReqTransNvmeToSlice | cosmos-firmware/request_transform.c:78-185 | consecutive slice requests that tile exactly the requested blocks, each non-empty and inside one slice, with startIndex the number of blocks before it; 16-bit fields and 32-bit wrap-around included |
| Slices.EachBlockOnce | cosmos-firmware/request_transform.c:78-185 | every block of a command is in exactly one request, at its own place |
| Slices.OnePartPerSlice | cosmos-firmware/request_transform.c:78-185 | there are as many requests as slices touched |
| Slices.Remainders | cosmos-firmware/request_transform.c:87-87 | the 32-bit sum may wrap around without changing the remainder |
| HostDma.DoneExactly | cosmos-firmware/nvme/host_lld.c:487-528 | the test fails exactly when a count indistinguishable from the recorded one (equal modulo 2^40) is outstanding |
| HostDma.DoneMeansDone | cosmos-firmware/nvme/host_lld.c:487-571 | it never reports an unfinished request, and with fewer than 2^40 DMAs issued since, it reports exactly the finished ones |
| HostDma.CycleHidesDone | cosmos-firmware/nvme/host_lld.c:530-571 | after 2^40 DMAs a finished request is reported unfinished |
| HostDma.FullExactly | cosmos-firmware/nvme/host_lld.c:396-398 | the FIFO-full test holds exactly with 255 outstanding; one more would look like none |
| HostDma.NextCount | cosmos-firmware/nvme/host_lld.c:415-417 | 8-bit tail and wrap-around count follow the unbounded count |
| HostDma.DmaFifo.SetAutoDma | cosmos-firmware/nvme/host_lld.c:389-453 | a DMA is sent exactly when some reading shows room, and at most 255 are ever outstanding |
| HostDma.DmaFifo.Check | cosmos-firmware/nvme/host_lld.c:487-571 | the completion test on the fields the firmware keeps, against the unbounded counts |
| HostDma.StickyIsExact | cosmos-firmware/request_transform.c:894-923 | asking until the first yes agrees with asking about every request, for all completion counts, exactly when the queue is in issue order |
| HostDma.LateIssueBreaks | cosmos-firmware/request_transform.c:962-988 | two or more transmissions issued by one scan of the custom queue are out of order, so some completion count retires an unfinished one |
| DmaScan.DmaQueue.constructor | cosmos-firmware/request_allocation.c:80-82 | an empty queue |
| DmaScan.DmaQueue.HardwareDone | cosmos-firmware/nvme/host_lld.c:491-491 | DMAs may finish at any point of a scan |
| DmaScan.DmaQueue.Send | cosmos-firmware/nvme/host_lld.c:389-453 | sending a block, also during a scan, disturbs neither scan nor order |
| DmaScan.DmaQueue.Append | cosmos-firmware/request_transform.c:635-646 | an appended request records its count and keeps the issue order; the scan under way is not disturbed |
| DmaScan.DmaQueue.Begin | cosmos-firmware/request_transform.c:899-901 | a scan starts at the tail knowing nothing |
| DmaScan.DmaQueue.Visit | cosmos-firmware/request_transform.c:903-922 | within 2^40 DMAs a reception is retired exactly when it is finished, and so is a transmission if the transmissions were in issue order when the scan began, whatever finishes or is appended between visits |
| DmaScan.DmaQueue.Skip | cosmos-firmware/request_transform.c:962-964 | a transmission behind receptions is passed over |
| DmaScan.DmaQueue.IssueLate | cosmos-firmware/request_transform.c:973-986 | a transmission issued by the scan leaves the transmissions in issue order exactly when none behind it is issued |
| DmaScan.LateOrder | cosmos-firmware/request_transform.c:973-986 | that condition, on the queue before the visit |
| RwCommand.CustomIoCmd.constructor | cosmos-firmware/nvme/nvme_io_cmd.c:120-160 | a command with its numbers of write and read slices and clear counters |
| RwCommand.CustomIoCmd.Transform | cosmos-firmware/request_transform.c:474-489 | write slices are counted before read slices and 16-bit counters do not wrap |
| RwCommand.CustomIoCmd.IssueRx | cosmos-firmware/custom_io_cmd_completion.c:79-87 | a reception issued |
| RwCommand.CustomIoCmd.CompleteRx | cosmos-firmware/custom_io_cmd_completion.c:100-108 | a reception completed |
| RwCommand.CustomIoCmd.IssueTx | cosmos-firmware/request_transform.c:854-874 | a transmission is issued exactly when all write slices have been received |
| RwCommand.CustomIoCmd.CompleteTx | cosmos-firmware/custom_io_cmd_completion.c:110-131 | the 16-bit counters post the completion exactly when no transformed slice is left |
| RwCommand.NextKeeps | cosmos-firmware/custom_io_cmd_completion.c:79-131 | every event keeps the counters within their ranges, write slices before read slices and no transmission before all receptions |
| RwCommand.EveryRun | cosmos-firmware/custom_io_cmd_completion.c:100-131 | at every point of every run no slice has been transmitted before all were received, and the completion has been posted once per transmission that finished too early and once at the end |
| RwCommand.OnceExactly | cosmos-firmware/custom_io_cmd_completion.c:110-131 | a finished command was completed exactly once if and only if no transmission finished as the last of those transformed with others still to be transformed |
| RwCommand.CountedFirst | cosmos-firmware/request_transform.c:474-495 | in particular when all read slices are transformed before the first is transmitted |
| RwCommand.PostedTwice | cosmos-firmware/custom_io_cmd_completion.c:110-131 | a run of one write and two read slices whose completion is posted twice |
| Remap.RemapOne | cosmos-firmware/address_translation.c:122-150 | one block remapped to the next good block of the reserve |
| Remap.NextGood | cosmos-firmware/address_translation.c:127-135 | the first good block from a point on, skipping only bad ones |
| Remap.ReplacementGood | cosmos-firmware/address_translation.c:216-242 | a user block is left on a bad block exactly when the good reserve blocks have run out before it; otherwise its block is good and of the same LUN |
| Remap.ReplacementInjective | cosmos-firmware/address_translation.c:100-202 | different user blocks have different physical blocks |
| Remap.RemapDie | cosmos-firmware/address_translation.c:117-186 | the k-th bad user block of each LUN of a die goes to the k-th good reserve block, as long as there is one; the others stay, and exactly those on bad blocks are counted |
| Remap.RemapBadBlock | cosmos-firmware/address_translation.c:100-202 | the same for all dies, with the largest count of lost blocks |
| Address.VsaRoundTrip | cosmos-firmware/address_translation.h:93-98 | die, block and page come back from the encoded address |
| Address.VorgRoundTrip | cosmos-firmware/address_translation.h:93-98 | every address is the encoding of its die, block and page |
| Address.VsaOrder | cosmos-firmware/address_translation.h:92-97 | addresses go over all dies first, then over the pages of a block, then over the blocks |
| Address.DieRoundTrip | cosmos-firmware/address_translation.h:101-108 | channel and way give back the die |
| Address.ChannelWayRoundTrip | cosmos-firmware/address_translation.h:101-108 | the die gives back channel and way |
| Address.Pblock | cosmos-firmware/address_translation.h:103-103 | virtual blocks are the user ranges of the two LUNs |
| Address.LsbRoundTrip | cosmos-firmware/address_translation.h:105-109 | LSB page numbers give back the page and fit an MLC block |
| Address.PlsbRoundTrip | cosmos-firmware/address_translation.h:105-110 | and the other way round: exactly the first page and the odd pages of an MLC block are places of a virtual page |
| Address.RemappedBlock | cosmos-firmware/address_translation.c:221-227 | through the remapping table a virtual block keeps its LUN and is flagged bad exactly when the reserve ran out before it |
| Address.GrownBadExact | cosmos-firmware/request_schedule.c:1002-1003 | the grown-bad formula gives back the physical block really used, and the row the page |
| Address.RowExact | cosmos-firmware/request_schedule.c:710-752 | a row is read off as the LUN of the virtual block, the block it is remapped to, and an LSB page: the first for page 0, an odd one for every other, two further on for the next page |
| Address.RowInjective | cosmos-firmware/request_schedule.c:706-751 | different pages of a die have different rows |
| Address.FlashInjective | cosmos-firmware/request_schedule.c:706-751 | different virtual slices have different channel, way or row |
| Requests.SettleKeeps | cosmos-firmware/request_transform.c:508-579 | settling a request that passed the buffer check keeps the invariant: FIFO chains with only the first past the check, exact counts, generations, admission order |
| Requests.BlockKeeps | cosmos-firmware/request_transform.c:678-696 | queueing a request behind an earlier one of its buffer keeps the invariant |
| Requests.CompleteKeeps | cosmos-firmware/request_transform.c:704-740 | a completion keeps the invariant up to the next of the chain |
| Requests.SubmitKeeps | cosmos-firmware/request_transform.c:187-341 | a submission that meets the conditions keeps the invariant, two of which nothing in the firmware enforces |
| Requests.ActiveFirst | cosmos-firmware/request_transform.c:704-712 | a request that completes is the first of its chain |
| Requests.MovedCounts | cosmos-firmware/request_transform.c:523-541 | blockedReadReqCnt equals the number of reads of the block in the buffer-blocked or row-blocked queue, so the 16-bit field never underflows |
| Requests.SettledLogs | cosmos-firmware/request_transform.c:543-562 | what is admitted extends a legal sequence of programs, reads and erases |
| Requests.WriteTurn | cosmos-firmware/request_transform.c:543-551 | a program that passes is the next page of the oldest generation that is not filled |
| Requests.GenErase | cosmos-firmware/request_transform.c:552-562 | an admitted erase starts the next generation and leaves no counted read behind |
| Serial.AdmittedAfter | cosmos-firmware/request_transform.c:508-579 | when a request is admitted, every earlier request of its block it clashes with (an erase, or a program and another access of the page) is admitted already |
| Serial.FinishesFirst | cosmos-firmware/request_transform.c:704-737 | a request that completes was submitted before every live request it shares a buffer, an erased block or a programmed page with |
| Serial.MoveInSeries | cosmos-firmware/request_transform.c:625-813 | sorting and releasing requests keep conflicting ones in submission order |
| Serial.CompleteInSeries | cosmos-firmware/request_allocation.c:418-448 | so does a completion |
| Serial.SubmitInSeries | cosmos-firmware/request_transform.c:187-341 | so does a submission |
| Serial.Commute | cosmos-firmware/request_transform.c:816-892 | requests that share neither buffer nor page nor an erased block may change places without changing what buffers, flash and host hold |
| Serial.Serializable | cosmos-firmware/request_transform.c:499-813 | completion order has the same effect as submission order; when nothing is live, as all requests ever submitted, number 0 first |
| Progress.WaitsForEarlier | cosmos-firmware/request_transform.c:499-813 | a request that cannot move waits for a request of its buffer, block or command that was submitted before it |
| Progress.NoDeadlock | cosmos-firmware/request_transform.c:499-813 | whenever a request is live, one can be sorted, admitted, issued or completed |
| Runs.EmptyOk | cosmos-firmware/request_transform.c:59-76 | the empty engine is in order |
| Runs.NextKeeps | cosmos-firmware/request_transform.c:625-813 | every step keeps the invariant |
| Runs.EveryRun | cosmos-firmware/request_transform.c:499-813 | every state of every run that meets the two conditions is in order and never stuck |
| Runs.NextCloser | cosmos-firmware/request_transform.c:625-813 | what happens without a submission brings a request closer to its end, or changes nothing |
| Runs.RunsDown | cosmos-firmware/request_schedule.c:128-144 | in every run without submissions, whatever the order, at most four events per live request change anything |
| Runs.RunsAreSerial | cosmos-firmware/request_transform.c:499-813 | at every point of every such run the completed operations have done to buffers, flash and host what they would have done one after another in submission order |
| Runs.AdmittedInOrder | cosmos-firmware/request_transform.c:508-579 | per block and run: programs of pages 0, 1, 2, ... in order, reads only of programmed pages, erases after exactly the programs they name and with no blocked read left; every admitted request is logged as what it asks for |
| Runs.RetireKeeps | cosmos-firmware/request_transform.c:704-779 | completing a request and releasing the next of its chain keeps the invariant |
| Runs.TxAfterRx | cosmos-firmware/request_transform.c:853-880 | in every state of every run, careful or not, a transmission that has been issued has no live reception of its command |
| Runs.SettledTx | cosmos-firmware/request_transform.c:964-986 | a transmission past the buffer check is issued if and only if no reception of its command is live |
| Runs.ScannedReqs | cosmos-firmware/request_transform.c:786-812 | a scan of a row-blocked queue touches the requests of the queue only, and moves them at most |
| Firmware.EveryQueue | cosmos-firmware/request_transform.c:673-813 | throughout every run of the scheduler the row-blocked queue of a die holds exactly the requests of the die that are blocked by their row, each once, so a scan misses none |
| Firmware.ReleasedWhenIdle | cosmos-firmware/request_schedule.c:157-194 | a row-blocked request is released only by a scan of its die, and only while nothing stands in the NAND queue of the die |
| Firmware.FirmwareIsRun | cosmos-firmware/request_schedule.c:150-207 | every run of the scheduler, with whole scans of the row-blocked queues and only on empty NAND queues, is a run of the engine |
| Limits.DeadlockFreeExactly | cosmos-firmware/request_transform.c:508-579 | for every number of pages per block up to 65530: no run of the scheduler from power on deadlocks if and only if submissions meet both conditions |
| Limits.InOrderExactly | cosmos-firmware/request_transform.c:508-579 | for every number of pages per block up to 65530: conflicting requests complete in submission order in all runs of the scheduler if and only if submissions meet both conditions |
| Limits.CanDeadlock | cosmos-firmware/request_transform.c:548-571 | for each condition and every number of pages up to 65530 a run of the scheduler whose submissions break only that one and that ends with requests waiting in a circle |
| Limits.CanOvertake | cosmos-firmware/request_transform.c:523-564 | and one in which a request completes before an earlier one it conflicts with |
| Limits.StaleRead | cosmos-firmware/request_transform.c:552-564 | with a second erase pending a read returns what the generation before that erase left on the page, out of buffer 1, instead of what the program submitted before the read is to write out of buffer 2 |
| Reuse.ReuseBreaks | cosmos-firmware/request_transform.c:508-579 | for every journal a device can submit, the first request that programs an erased block again can be due in a run that has met both conditions so far, and then breaks the first |
| Reuse.StoreBreaks | cosmos-firmware/request_transform.c:187-579 | so it is for every store that has come to use a block again |
| Reuse.ReuseHappens | cosmos-firmware/garbage_collection.c:71-137 | two slices written in turn on three blocks: a block is used again, and the journal of it can be run so |
| Reuse.TakeTurn | cosmos-firmware/address_translation.c:662-713 | each such write succeeds and programs a page of one of the three blocks |
| Reuse.StaysBlank | cosmos-firmware/address_translation.c:801-834 | as long as no block is used again an erased block stays blank |
| Sync.EndsExactly | cosmos-firmware/request_schedule.c:109-116 | the loop that waits for all low-level requests can end if and only if no request stands behind one of a read-write command at its buffer |
| Sync.NeverQuiet | cosmos-firmware/request_schedule.c:109-116 | in no run of the loop such a request is ever released |
| Sync.GoesOn | cosmos-firmware/request_schedule.c:109-116 | otherwise the loop always has something to do until it ends |
| Sync.TrapHappens | cosmos-firmware/request_schedule.c:109-116 | a reception with a program behind it is enough for it never to end |
| Sync.FreesExactly | cosmos-firmware/request_schedule.c:118-126 | the wait for a free request slot can end if and only if not all slots are held by slice requests and the code that waits |
| Engine.Engine.constructor | cosmos-firmware/request_transform.c:59-76 | no live request, blank tables |
| Engine.Engine.UpdateBlockingReq | cosmos-firmware/data_buffer.c:176-206 | the request is last on the chain of its buffer |
| Engine.Engine.Enter | cosmos-firmware/request_transform.c:187-341 | whatever is submitted, the new request takes its slot and is last on the chain of its buffer |
| Engine.Engine.Submit | cosmos-firmware/request_transform.c:187-341 | a request submitted under the two conditions leaves everything in order |
| Engine.Engine.CheckBufDep | cosmos-firmware/request_transform.c:499-505 | no predecessor link exactly when the request is first on its chain |
| Engine.Engine.CheckRowAddrDep | cosmos-firmware/request_transform.c:508-579 | passes exactly when the page or block is due; a read is counted while it waits, and the erase flag is set on selection only |
| Engine.Engine.PutToBlockedByBufDepReqQ | cosmos-firmware/request_transform.c:582-623 | a read queued behind its buffer is counted |
| Engine.Engine.Place | cosmos-firmware/request_transform.c:635-676 | the request goes where its check says and the table follows |
| Engine.Engine.SortReq | cosmos-firmware/request_transform.c:625-701 | first on its chain: settled, a transmission issued if and only if no reception of its command is live; otherwise queued behind it |
| Engine.Engine.SelectLowLevelReqQ | cosmos-firmware/request_transform.c:625-701 | the request in hand always gets sorted: waiting for a pending erase ends |
| Engine.Engine.PopChain | cosmos-firmware/request_transform.c:708-737 | the first of the chain leaves and the link names the next |
| Engine.Engine.PopBlockingReq | cosmos-firmware/request_allocation.c:418-448 | the completed request is gone from pool, chain and NAND queue |
| Engine.Engine.Complete | cosmos-firmware/request_transform.c:704-779 | a completion pops the first of its chain and settles the next if it was waiting for the buffer |
| Engine.Engine.Revisit | cosmos-firmware/request_transform.c:792-807 | a row-blocked request is admitted if it passes now, otherwise nothing changes |
| Engine.Engine.ReleaseBlockedByRowAddrDepReq | cosmos-firmware/request_transform.c:782-813 | the whole scan: every request of the queue in turn is admitted exactly if it passes after what the visits before it did, the others stay in order, and nothing else changes |
| Engine.Engine.IssueWaitingTx | cosmos-firmware/request_transform.c:964-986 | a waiting transmission has passed the buffer check, so the blocked branch of the custom queue check is unreachable; it is issued if and only if no reception of its command is live |
| Engine.Engine.StepOldest | cosmos-firmware/request_schedule.c:138-144 | some live request can always move, and everything gets closer to its end; a read waiting for an erase is not the one |
| Engine.Engine.Drain | cosmos-firmware/nvme/nvme_main.c:187-197 | with no further submission every live request completes, as many as were ever submitted |
| Engine.Engine.SyncAvailFreeReq | cosmos-firmware/request_schedule.c:118-126 | the wait for a free request slot ends when not all slots are held |
| Engine.Engine.SyncAllLowLevelReqDone | cosmos-firmware/request_schedule.c:109-116 | the loop ends when no request stands behind one of a read-write command, and leaves exactly the requests of read-write commands |
| Engine.Engine.SyncReleaseEraseReq | cosmos-firmware/request_schedule.c:128-136 | the wait for a pending erase ends, with the read that waits still in hand |
| Journal.NoteSound | cosmos-firmware/request_transform.c:187-341 | a request that may follow keeps the journal of submitted requests: programs in page order and out of filled buffers, reads of programmed pages, erases of full blocks, and the memory is what they leave when played in order |
| Shadow.ReadNoted | cosmos-firmware/request_transform.c:273-341 | a page read into a buffer |
| Shadow.ProgramNoted | cosmos-firmware/request_transform.c:187-228 | the next page of a block programmed from a buffer that has been filled |
| Shadow.EraseNoted | cosmos-firmware/address_translation.c:801-834 | a full block erased |
| Shadow.DmaNoted | cosmos-firmware/request_transform.c:456-472 | a buffer sent to the host or filled by it |
| Join.MaySubmit | cosmos-firmware/request_transform.c:187-497 | what the store submits meets every condition on submissions but the two the engine does not check |
| Join.CanRun | cosmos-firmware/request_transform.c:187-813 | a device with enough buffers and blocks can run any such journal to its end |
| Join.EngineAgrees | cosmos-firmware/request_transform.c:187-813 | however the engine runs the requests of a store, once all have completed buffers, flash and host hold what the store says |
| Join.DeviceAgrees | cosmos-firmware/request_transform.c:78-813 | the memory then holds the host array, slice by slice, and the host has been sent what the store answered |
| ReqPool.Pool.constructor | cosmos-firmware/request_allocation.c:63-115 | all slots free in order, all counters right |
| ReqPool.Pool.PutTo | cosmos-firmware/request_allocation.c:118-137 | the slot in hand joins the end of one queue, no other queue changes, its type names it, all counters follow |
| ReqPool.Pool.GetFrom | cosmos-firmware/request_allocation.c:139-166 | the first slot of a queue leaves it; an empty queue is reported |
| ReqPool.Pool.SelectiveGetFrom | cosmos-firmware/request_allocation.c:243-277 | a slot leaves the middle of its queue, the order of the rest is kept |
| ReqPool.OneQueue | cosmos-firmware/request_allocation.c:63-524 | in every state a slot is on exactly one queue, the one its reqQueueType names, or in hand |
| ReqPool.TypeTells | cosmos-firmware/request_allocation.c:63-524 | in every state the type of a slot names its queue, type by type: it is BLOCKED_BY_BUF_DEP exactly when the slot is on that queue, NAND exactly when it is on the NAND queue of some die, and so on |
| ReqPool.CountersTell | cosmos-firmware/request_allocation.c:217-448 | blockedReqCnt, notCompletedNandReqCnt and the count of custom requests are the lengths of the queues they are named after, over all dies |
| ReqPool.TallyChange | cosmos-firmware/request_allocation.c:217-448 | one slot more or less keeps every queue counter, blockedReqCnt and notCompletedNandReqCnt equal to the lengths and their sums |
| Ways.Channel.constructor | cosmos-firmware/request_schedule.c:62-107 | all ways idle |
| Ways.Channel.Move | cosmos-firmware/request_schedule.c:342-642 | the way changes lists, stands last and has no next way |
| Polling.OverExactly | cosmos-firmware/request_schedule.c:854-916 | whatever its polls showed before, an operation is found over exactly when the report of an unanswered status command says so, its completion flag is set or the way is ready, and failed exactly when that says so |
| Polling.OneReportEach | cosmos-firmware/request_schedule.c:876-903 | at most one status command is unanswered and no report is taken without one |
| Polling.OverIs | cosmos-firmware/request_schedule.c:941-1021 | the end of an operation: a sensed read goes on to its transfer, a failed sensing or transfer with retries left is tried again from the sensing, anything else leaves and the retries are reset |
| Polling.ReadLeaves | cosmos-firmware/request_schedule.c:941-1021 | in every run of a way a request that came as a read leaves its queue only when it has been sensed and its transfer has then ended well or with a warning, or when it fails after RETRY_LIMIT failures |
| Ways.Channel.FinishNandReq | cosmos-firmware/request_schedule.c:941-1021 | a sensed read becomes a transfer at the head of its queue, a failed read or transfer with retries left becomes a read again, every other request leaves; queue, retries and die state case by case |
| Ways.Channel.VisitIdle | cosmos-firmware/request_schedule.c:155-173 | one idle way: an empty queue gains what is released, and the way goes to the list of its first request exactly if it has one |
| Ways.Channel.VisitReport | cosmos-firmware/request_schedule.c:181-224 | one way of the report list: it stays exactly if it is not ready or still running, and the next way is found before it moves |
| Ways.Channel.ScanIdle | cosmos-firmware/request_schedule.c:150-175 | the loop ends; exactly the ways with work, before or released now, leave the idle list for that of their request, the rest are counted, and every way takes steps of its own only |
| Ways.WokenIs | cosmos-firmware/request_schedule.c:157-158 | every queue is as before the scan, an empty one of an idle way with all that its row-blocked queue releases |
| Ways.Channel.ScanStatusReport | cosmos-firmware/request_schedule.c:176-226 | the loop ends; exactly the ways that have to stay, in order, the count is that of the idle ways and those, every queue is what the visits in order make of it, and every way takes steps of its own only |
| Ways.KeptTells | cosmos-firmware/request_schedule.c:183-224 | a way stays on the report list exactly when it is not ready, or there is no report yet, no completion flag, or, with nothing to check, it is not ready |
| Ways.Channel.Poll | cosmos-firmware/request_schedule.c:183-219 | one way checked: it stays, is dispatched, or is to be checked again; its queue loses what finished, all gain what arrived, and an empty one what was released |
| Ways.Channel.End | cosmos-firmware/request_schedule.c:187-206 | an operation that ended: its request leaves or goes on, and the way goes to the list of its next request or is idle |
| Ways.NothingLost | cosmos-firmware/request_schedule.c:176-226 | to the last request: a way that is visited loses what finished, with what has arrived by then; if nothing is left, what its row-blocked queue releases takes its place; and it gains what arrives later |
| Ways.Untouched | cosmos-firmware/request_schedule.c:176-226 | a way that is not visited gains exactly what the requests that leave let go on to it, in order |
| Ways.Channel.WaitingTells | cosmos-firmware/request_schedule.c:227-228 | the count equals the number of ways exactly when the five action lists are empty |
| Ways.Channel.RunList | cosmos-firmware/request_schedule.c:251-320 | exactly the head of an action list is started: following the link of the moved way ends the loop |
| Ways.Channel.RunStatusCheck | cosmos-firmware/request_schedule.c:230-250 | exactly the first ready way is polled and queued for its report |
| Ways.EveryHeadStarts | cosmos-firmware/request_schedule.c:229-322 | in an acting round with the controller free the head of every non-empty action list is started and waits for its status |
| Ways.BusyStops | cosmos-firmware/request_schedule.c:251-320 | the action lists are served in the order read trigger, erase, write, read transfer; a start that finds the controller busy ends the round and leaves the later lists alone |
| Ways.FirstReadyAsked | cosmos-firmware/request_schedule.c:230-250 | the first ready way of those to be checked, and only it, goes on to wait for its report; if the controller is busy then, nothing is started |
| Ways.Channel.SchedulingNandReqPerCh | cosmos-firmware/request_schedule.c:146-323 | every way stays on exactly one list that agrees with its die and the request at the head of its queue; idle ways with work are idle no longer; every queue has lost what finished and gained what was released; every way takes steps of its own only; the round acts exactly when the controller is free and an action list is not empty, and then exactly as stated |

## Left out

- NAND failures, ECC and retry effects on data: the data results are for runs without failures; `Ways.Channel.FinishNandReq` has the retry and drop branches of the scheduler.
- Erase counts, time measurement, print buffers and debug output.
- The assertions that a logical slice address is below the capacity of the device; logical slices are any natural numbers.
- Reading, scanning and saving the bad block table: the bad marks are an input of the remapping.
- Physical-address requests (bad block table and whole-device erase), reset and set-feature requests outside the way lists.
- Controller registers, NVMe admin commands, interrupts and the main loop, except for the loop over the request queues.
- The InnoDB changes and everything else under mysql/.
- Remap.RemapBadBlock: die after die, where the source goes block after block through all dies; the dies share nothing.
- Requests.SubmitKeeps: under both conditions on submissions; `Limits.DeadlockFreeExactly` and `Limits.InOrderExactly` are why. `Engine.Engine.Enter` is a submission under neither.
- Serial.SubmitInSeries: under both conditions on submissions, as above.
- Runs.NextKeeps: under both conditions on submissions, as above.
- Runs.EveryRun: under both conditions on submissions, as above.
- Runs.RunsAreSerial: under both conditions on submissions, as above.
- Runs.AdmittedInOrder: under both conditions on submissions, as above.
- Engine.Engine.Submit: under both conditions on submissions, as above. The 12-bit page counter of the row table is unbounded; it never exceeds the pages of a block, which are fewer.
- Join.EngineAgrees: for runs that meet both conditions on submissions, as above; `Join.CanRun` is one for every journal.
- Limits.DeadlockFreeExactly: up to 65530 pages per block. With more, the programs of two generations that the runs need at once do not fit the 16-bit slot tags.
- Limits.InOrderExactly: up to 65530 pages per block, as above.
- Limits.CanDeadlock: up to 65530 pages per block, as above.
- Limits.CanOvertake: up to 65530 pages per block, as above.
- Limits.StaleRead: up to 65530 pages per block, as above.
- Reuse.StoreBreaks: the block is used again within the first 65535 requests, all of which stay in the pool; that stores use blocks again is shown on the translation layer alone (`Reuse.ReuseHappens`), without the buffers above it.
- Commands.Execute: success is bounded below, by the room before any collection and by what is buffered; what decides it request by request is exact in `Store.Store.Serve`.
- Commands.Run: success is bounded below, as above.
- Join.DeviceAgrees: for runs that meet both conditions on submissions, as above. The host commands of the store are reads and writes; requests of RW commands are in the engine only.
- Engine.Engine.ReleaseBlockedByRowAddrDepReq: the queue of the die is an input; what is on it throughout a run is `Firmware.EveryQueue`.
- Engine.Engine.Complete: NAND operations of different blocks of a die may complete in any order; the die's queue, which orders them too, is in `Ways`.
- Engine.Engine.SelectLowLevelReqQ: while it waits for an erase, the oldest live request moves first; `Runs.EveryRun` and `Runs.RunsDown` cover every other order.
- Engine.Engine.SyncAvailFreeReq: which slots are held is an input; while it waits, the oldest live request moves first.
- Firmware.FirmwareIsRun: NAND operations of different blocks of a die may complete in any order.
- ReqPool.Pool.GetFrom: an empty free queue is reported; the wait for a slot is `Engine.Engine.SyncAvailFreeReq`.
- Ways.Channel.SchedulingNandReqPerCh: requests released during a round are inputs; how the request engine chooses them is in `Engine`.
- DmaScan.DmaQueue.IssueLate: when the receptions of a command are done is an input; the counters are in `RwCommand`.
- RwCommand.CustomIoCmd.Transform: the count of NAND requests of a command decides nothing and is not kept.
