# DHMP: verified models of its allocator, cache protocol and client structures

DHMP is a distributed hybrid memory pool: clients allocate objects in the NVM of remote
servers over RDMA and let the servers keep hot objects in DRAM. This project models the
parts of it whose correctness rests on whole runs rather than on single functions, and
proves what those runs keep.

## What is modelled

**The NVM allocator** (`BuddyBlocks`, `BuddyLists`, `BuddyInvariant`, `BuddyRuns`,
`BuddyArea`, `Totals`, `Arithmetic`, `NvmPool`, `NvmSafety`, `NvmPolicy`,
`NvmRoundTrip`, `NvmServer`). Offsets are counted in units of
64 KB. `BuddyLists` gives the free lists as values, for any number of orders; `BuddyArea` is
one registered area whose list heads are updated in place by the splitting and merging retry
loops; `NvmPool` is the server's list of areas, its list of large regions, the current area
and the connections' counters; `NvmServer` holds the handlers that update them in place. Every method
is proved to compute the corresponding function, and the functions are proved safe over every
interleaving of requests by any number of connections. `NvmPolicy` states which area serves, and what
a request leaves alone.

**The DRAM cache protocol** (`DramCache`, `DramServer`, `CacheProtocol`, `CacheSafety`,
`CacheTheorems`, `CacheProgress`, `CacheRace`, `CachePaths`, `CacheClient`). Clients and one server exchange allocation messages over one
FIFO connection and cache messages over another. A step is one action of a client's work
thread, one handled message or one completed RDMA write; clients interleave freely.
`DramServer` is the server's table of 251 chained buckets with both connections' counters,
updated in place; `CacheClient` is the client's side: its records, kept in its address table, and
the handlers of the two replies.

**The whole server** (`FlatMemory`, `JointServer`, `JointPaths`, `Witnesses`). Allocator, cache and memory as one state: a
malloc or free request drives the pool and the cache together, memory is one array of bytes, and
what each of the two models takes for granted about the other's part (new addresses, regions that
are outstanding, objects with bytes of their own) is proved from the other's invariant.

**The poll round** (`PollRound`, `PollTheorems`, `PollSelect`, `PollOutcome`,
`PollInRun`, `PollTable`). The scan of the address table,
the two-pointer exchange over the sorted entries, what the exchange achieves, and that both
policies only ever send requests the protocol accepts; and what is cached once the round has been
served.

**Smaller cores**: the staging buffers shared by two threads (`SendPool`), MurmurHash3
(`Murmur3`, `HashIndex`), the client's address table (`AddrTable`), the intrusive lists on the
heap (`LinuxList`) and round-robin node selection (`NodeSelect`).

## Results where the code departs from the obvious claim

- *Coalescing.* An area starts with two free 64 KB buddies that nothing merges. They stay
  apart exactly until the first order-0 allocation (`BuddyRuns.EveryRun`). An area whose
  blocks have all been freed therefore has its initial layout if order 0 was never asked for
  and two 1 MB blocks otherwise (`BuddyRuns.EverythingFreed`); and an allocation followed by its free
  restores the very same lists except for that first order-0 allocation (`BuddyRuns.AllocThenFree`), and the
  very same free bytes always (`BuddyRuns.FreeBytesRestored`, `NvmRoundTrip.MallocThenFree`).
- *The second scan of the exchange* starts below the point where the two pointers met and so
  overlooks one uncached object in one exactly described case (`PollTheorems.HotIn`, `PollTheorems.NotAskedExactly`). With an
  empty cache the overlooked object is the hottest one (`PollTheorems.EmptyCacheOverlooksHottest`).
- *A round need not leave the hottest objects cached.* All cold objects are evicted before any hot
  one is admitted. The top of the sorted array is cached afterwards if and only if, as things stood
  when the round began, the allocations for the cold objects' partners succeed and the client's
  used bytes, less the cold objects, plus the partners, stay within its share
  (`PollOutcome.TopKAfterRound`, and `PollInRun.TopKInRun` with other clients' steps in between;
  `PollTable.TopOfTableInRun` says the same of the client's table).
  Partners together no longer than the cold objects always suffice (`PollOutcome.PartnersNoLonger`).
  With successful allocations the cache ends with what it held, less the cold objects, plus the
  granted prefix (`PollOutcome.SizeAfterRound`), in the run of `Witnesses.RoundCanFail` with nothing.
- *Admission does not copy.* A granted object consists of whatever the DRAM region held
  (`CacheTheorems.GrantReplacesContent`), so written bytes are proved to survive up to the next
  grant, not across it (`CacheTheorems.WrittenContentSurvives`).
- *Frees are charged to the other connection.* Bytes freed while cached are never given back to
  the client's share. `CacheTheorems.FreedBytesStayCharged` states exactly when a request is
  refused for it, `CacheTheorems.LockedOutForGood` that the loss is permanent, and
  `Witnesses.ShareCanLeak` gives a run of the whole server, with a length the allocator grants, that
  ends with a refusal although nothing is cached.
- *A staging buffer can be lost*: exactly when a short transfer fails to start after its buffer was
  obtained (the task cannot be allocated, or a read cannot be posted), and when a short write
  completes with an error (`SendPool.LossesExactly`).
- *The poll round does not wait for the client's own writes.* A write overtaken by a clear of its
  object is lost unless it changes nothing, one overtaken by a grant does not reach the new copy
  (`CacheRace.ClearOvertakesWrite`, `CacheRace.GrantOvertakesWrite`, run: `Witnesses.WriteCanBeLost`).
- *The client lookup* compares the address without the server number. It finds the right
  record if and only if no newer record of the bucket has the same server-side address
  (`AddrTable.LookupIsRightIff`). The hash keeps such keys apart
  (`Murmur3.AddressesSharingAHalf`) but not the buckets: 0x7f5a01c00010 of the servers 0 and 1
  both fall into bucket 156, and the lookup goes wrong (`AddrTable.TwoServersCanAlias`).

## Model

| member | source | states |
|---|---|---|
| BuddyArea.BuddySizes | dhmp/src/dhmp_server.c:36-38 | the five sizes are 64 KB times the powers of two, no two alike |
| BuddyArea.Area.BuildBuddySystem | dhmp/src/dhmp_server.c:72-107 | the nested loops lay the area out as 2,1,1,1,1 consecutive blocks: list i holds exactly offset 2^i (0 and 1 for order 0), for any base address |
| BuddyArea.Area.constructor | dhmp/src/dhmp_server.c:148-168 | a region without buddy lists holds its registration and the marker -2 |
| BuddyArea.Area.FirstServing | dhmp/src/dhmp_transport.c:129-133 | the upward scan finds the first non-empty list at or above the order |
| BuddyArea.Area.SplitHead | dhmp/src/dhmp_transport.c:142-168 | the first block of list i leaves it and its left and right halves stand, in this order, in front of list i-1; nothing else changes |
| BuddyArea.Area.TakeHead | dhmp/src/dhmp_transport.c:171-174 | the first block is returned with its address, the size of its order and the area's key, and leaves the list |
| BuddyArea.Area.GetFreeBlock | dhmp/src/dhmp_transport.c:121-187 | the retry loop ends, splits the first large enough block down to the order asked for, returns a block of exactly that size, leaves one right half per order passed, and keeps `max_index` exact; on failure nothing changes |
| BuddyArea.Area.RefreshMaxIndex | dhmp/src/dhmp_transport.c:177-183 | the downward scan makes `max_index` the highest non-empty order, -1 if there is none |
| BuddyArea.AlignmentTest | dhmp/src/dhmp_transport.c:398-399 | the modulus test on byte offsets is the alignment of the block in its parent |
| BuddyArea.Area.FindBuddy | dhmp/src/dhmp_transport.c:398-410 | the left/right address comparison finds the buddy's position if the buddy is in the list, and only then |
| BuddyArea.Area.InsertPosition | dhmp/src/dhmp_transport.c:412-418 | inserting before the first larger address is sorted insertion |
| BuddyArea.Area.InsertAt | dhmp/src/dhmp_transport.c:352-369 | a new block structure with the size of the order goes in at that position and nothing else moves |
| BuddyArea.Area.RecycleFreeBlock | dhmp/src/dhmp_transport.c:371-422 | merges if and only if the order is below the top and the buddy is free; then the buddy leaves the list and the block becomes the parent, otherwise the block is inserted in order |
| BuddyArea.Area.ReturnBlock | dhmp/src/dhmp_transport.c:439-460 | the retry loop finds the order from the length, merges upward as long as possible and leaves `max_index` exact |
| BuddyBlocks.Laminar | dhmp/src/dhmp_transport.c:398-399 | two aligned blocks are disjoint or nested |
| BuddyBlocks.SplitTiles | dhmp/src/dhmp_transport.c:142-168 | replacing a block of a tiling by its halves gives a tiling of the same area |
| BuddyBlocks.MergeTiles | dhmp/src/dhmp_transport.c:398-410 | replacing two halves by their parent gives a tiling |
| BuddyBlocks.ChainTiles | dhmp/src/dhmp_transport.c:128-175 | splitting a block down any number of orders keeps the area tiled |
| BuddyInvariant.AllocStrict | dhmp/src/dhmp_transport.c:121-187 | an allocation hands out a block nobody holds and keeps free and outstanding blocks tiling the area, every list ascending and no two buddies free |
| BuddyInvariant.FreeStrict | dhmp/src/dhmp_transport.c:371-451 | freeing an outstanding block keeps the same, through any number of merges |
| BuddyInvariant.FreeListsAreMaximalRegions | dhmp/src/dhmp_transport.c:371-451 | a block is on a free list if and only if it is a maximal aligned region that touches no outstanding block |
| BuddyInvariant.StrictIsCanonical | dhmp/src/dhmp_transport.c:371-451 | the outstanding blocks alone determine every list, order of elements included |
| BuddyInvariant.Compact | dhmp/src/dhmp_transport.c:121-187 | any aligned region free of outstanding blocks lies inside one single free block |
| BuddyRuns.InitialIsPristine | dhmp/src/dhmp_server.c:72-107 | for any number of orders the initial layout tiles the area, ascending, with only the 0/64 KB pair unmerged |
| BuddyRuns.StepKeepsInv | dhmp/src/dhmp_transport.c:121-187 | every allocation and free keeps tiling, order and coalescing, with the exception for the initial pair |
| BuddyRuns.EveryRun | dhmp/src/dhmp_transport.c:371-451 | after any run from the initial layout free and outstanding blocks tile the area and all lists ascend; two buddies are both free if and only if order 0 was never asked for, and then they are the initial pair |
| BuddyRuns.EverythingFreed | dhmp/src/dhmp_transport.c:371-451 | once everything is freed the lists are the initial layout or two 1 MB blocks, and which one is decided by whether order 0 was ever asked for |
| BuddyRuns.MaxIndexDecides | dhmp/src/dhmp_transport.c:196-212 | `max_index >= index` holds if and only if the allocation will succeed |
| BuddyRuns.AllocFailsExactly | dhmp/src/dhmp_transport.c:128-140 | an allocation fails if and only if no aligned region of its size is untouched (the unmerged pair counting as taken for larger sizes) |
| BuddyRuns.AllocIsBestFit | dhmp/src/dhmp_transport.c:128-175 | the block handed out begins the lowest of the smallest free blocks that are big enough |
| BuddyRuns.AllocThenFree | dhmp/src/dhmp_transport.c:439-451 | freeing the block just allocated restores the exact lists, unless it was the first order-0 allocation, and then it does not |
| BuddyRuns.InvTiles | dhmp/src/dhmp_server.c:72-107 | in every state that keeps the invariant, initial pair included, free and outstanding blocks tile the area and none is both |
| BuddyRuns.FreeBytes | dhmp/src/dhmp_transport.c:371-451 | a byte is free if and only if it lies in the area and no outstanding block covers it |
| BuddyRuns.FreeBytesRestored | dhmp/src/dhmp_transport.c:439-451 | freeing the block just allocated restores the exact set of free bytes in every case, also where the lists coalesce differently |
| NvmPool.OrderFor | dhmp/src/dhmp_transport.c:196-198 | the least class that holds the request, 5 if there is none |
| NvmPool.OrderOf | dhmp/src/dhmp_transport.c:441-443 | the class of exactly this length, 5 if there is none |
| NvmPool.FirstAble | dhmp/src/dhmp_transport.c:204-211 | the first area in the list that can serve |
| NvmPool.ChooseArea | dhmp/src/dhmp_transport.c:200-212 | the current area whenever it can serve; otherwise an area that can, with none before it in the list that can |
| NvmSafety.MallocBlockStep | dhmp/src/dhmp_transport.c:189-246 | a block request keeps the pool invariant; it fails only if no area can serve and registration fails; otherwise it grants a new region of exactly the size class |
| NvmSafety.MallocAreaStep | dhmp/src/dhmp_transport.c:249-299 | a large request keeps the invariant, fails exactly if registration fails and then changes nothing |
| NvmSafety.FreeStep | dhmp/src/dhmp_transport.c:424-564 | freeing an outstanding region over its connection keeps the invariant on all three paths, whether or not a freed area is rebuilt |
| NvmSafety.ServeKeepsInv | dhmp/src/dhmp_transport.c:274-322 | every request keeps tiling per area, separation of registrations, the current area in the list, and the counters |
| NvmSafety.EveryRunKeepsInv | dhmp/src/dhmp_transport.c:274-564 | so does every interleaving of requests of any connections from the server's start |
| NvmSafety.ServerWideSafety | dhmp/src/dhmp_transport.c:189-564 | in every reachable state held regions are disjoint from each other and from all free blocks, the current area is in the list and each connection's `nvm_used_size` is the sum of the lengths it holds |
| NvmSafety.RegionsNeverOverlap | dhmp/src/dhmp_transport.c:232-234 | two different regions, held or free, in any areas, share no byte address |
| NvmSafety.HeldIsNotFree | dhmp/src/dhmp_transport.c:171-174 | no region is both held and free |
| NvmSafety.SizeClassRoundTrip | dhmp/src/dhmp_transport.c:285-299 | for every size the granted length sends the free down the same path, is never too short, and is the least class on the block path |
| NvmSafety.GrantedAddressIsNew | dhmp/src/dhmp_transport.c:232-234 | a granted address is the address of no region held already |
| NvmSafety.IdleAreaIsWhole | dhmp/src/dhmp_transport.c:424-473 | an area none of whose blocks is held has its initial layout or two 1 MB blocks |
| NvmPolicy.CurrentServesFirst | dhmp/src/dhmp_transport.c:200-201 | as long as the current area has a block of the class, it serves and stays current, whatever areas stand before it in the list |
| NvmPolicy.FirstAbleServesNext | dhmp/src/dhmp_transport.c:202-212 | otherwise the first area in the list that has one serves and becomes current; no other area changes |
| NvmPolicy.NewAreaServesLast | dhmp/src/dhmp_transport.c:214-223 | only if none has one a new area is registered, goes to the front, serves and becomes current; if it cannot be had nothing changes |
| NvmPolicy.LargeRequestsLeaveAreas | dhmp/src/dhmp_transport.c:249-272 | a request above 1 MB changes no area and leaves the current one current |
| NvmPolicy.FreedBlockTouchesOneArea | dhmp/src/dhmp_transport.c:424-473 | freeing a block changes no area but the one with its key, and never which one is current |
| NvmPolicy.FreedRegionLeavesAreas | dhmp/src/dhmp_transport.c:475-530 | freeing a larger region changes no area and not the current one; the others keep their places in the list, behind the rebuilt one if there is one |
| NvmPolicy.CurrentServedLast | dhmp/src/dhmp_transport.c:200-223 | in any run the current area is the one that answered the last granted block request |
| NvmPolicy.BlocksStayTogether | dhmp/src/dhmp_transport.c:200-223 | in any run block requests are answered by the area that answered the last one for as long as it has a block for them |
| NvmRoundTrip.MallocThenFree | dhmp/src/dhmp_transport.c:274-564 | for every size and on every path, malloc and then free of what it granted restores holdings, every counter, the large regions and each old area's exact free bytes; the pair adds an area exactly when no area could serve a block request or a 2 MB region is rebuilt, and that area is wholly free |
| NvmRoundTrip.GrantsDetermineBytes | dhmp/src/dhmp_transport.c:371-451 | what clients hold of an area determines its free bytes, whatever happened before |
| NvmServer.Server.constructor | dhmp/src/dhmp_server.c:234-237 | the server starts with one buddy area, which is current |
| NvmServer.Server.CreateBuddyArea | dhmp/src/dhmp_server.c:120-170 | a new area goes to the front of the list with the initial layout and the top order as `max_index` |
| NvmServer.Server.FindAble | dhmp/src/dhmp_transport.c:204-211 | the list walk stops at the first area that can serve |
| NvmServer.Server.PickArea | dhmp/src/dhmp_transport.c:200-223 | a current area whose `max_index` suffices is kept; otherwise the first one in the list whose `max_index` does becomes current, and only if there is none a new one; otherwise nothing changes |
| NvmServer.Server.TakeBlockFromCur | dhmp/src/dhmp_transport.c:225-234 | the reply carries the block's address, size and the area's key |
| NvmServer.Server.MallocOneBlock | dhmp/src/dhmp_transport.c:189-246 | the heap version computes the pool function of the same name |
| NvmServer.Server.MallocMoreArea | dhmp/src/dhmp_transport.c:249-272 | a registration of the given length goes to the front of the second list and is returned |
| NvmServer.Server.MallocRequestHandler | dhmp/src/dhmp_transport.c:274-322 | the three-way choice of path, the reply and the connection's counter are those of the pool function, so all safety lemmas apply to the heap |
| NvmServer.Server.FreeOneBlock | dhmp/src/dhmp_transport.c:424-473 | the area is found by key and gets the block back; an unknown key changes nothing |
| NvmServer.Server.ReturnToArea | dhmp/src/dhmp_transport.c:439-460 | only the area's lists and `max_index` change |
| NvmServer.Server.FindBig | dhmp/src/dhmp_transport.c:483-487 | the first large region with this key, or the end of the list |
| NvmServer.Server.UnlinkBig | dhmp/src/dhmp_transport.c:494 | exactly that region leaves the list |
| NvmServer.Server.FreeOneArea | dhmp/src/dhmp_transport.c:475-507 | a freed 2 MB region becomes a buddy area in front of the list if rebuilding succeeds, and is released otherwise |
| NvmServer.Server.FreeMoreArea | dhmp/src/dhmp_transport.c:509-530 | a larger region is unlinked and released |
| NvmServer.Server.FreeRequestHandler | dhmp/src/dhmp_transport.c:532-553 | the path is chosen by the length and the connection's counter is reduced, as in the pool function; the pool's invariant is kept if the sender holds the region |
| NvmServer.OutstandingIsDefined | dhmp/src/dhmp_transport.c:424-530 | a free of an outstanding region never takes a path on which the source's behaviour is undefined |
| DramServer.BucketFind | dhmp/src/dhmp_transport.c:632-641 | searching the one bucket finds what searching the whole table would find |
| DramServer.BucketRemove | dhmp/src/dhmp_transport.c:632-641 | unlinking in the bucket removes one entry of the table and leaves all other buckets alone |
| DramServer.DramTable.CreateDramEntry | dhmp/src/dhmp_transport.c:579-614 | the entry goes in front of its bucket |
| DramServer.DramTable.DestroyDramEntry | dhmp/src/dhmp_transport.c:626-656 | a found copy is written back to NVM and unlinked; the result says whether there was one |
| DramServer.DramTable.Grant | dhmp/src/dhmp_transport.c:697-706 | a grant adds the entry and charges the poll connection and the server |
| DramServer.DramTable.ApplyDramRequest | dhmp/src/dhmp_transport.c:671-728 | the reply covers a prefix with the regions it got; it ends exactly before the first request that would take the connection's use, times the number of connections, beyond twice the threshold |
| DramServer.DramTable.ClearDramRequest | dhmp/src/dhmp_transport.c:783-812 | every named copy is evicted and both counters are reduced |
| DramServer.DramTable.FreeDram | dhmp/src/dhmp_transport.c:542-547 | a freed object's copy goes and the normal connection is charged, only if there was a copy |
| DramCache.CreateOk | dhmp/src/dhmp_transport.c:579-614 | a grant within the share keeps the table and the counters exact and touches no other client's object |
| DramCache.ClearOk | dhmp/src/dhmp_transport.c:783-812 | on a proper request the client that hears the reply agrees with the server again; contents and other clients are unchanged |
| DramCache.ApplyOk | dhmp/src/dhmp_transport.c:671-728 | the same for grants: budget kept, agreement restored, only granted objects change |
| DramCache.ShareIsLargest | dhmp/src/dhmp_transport.c:687-689 | a number of bytes is within the share if and only if, times the number of connections, it is within twice the threshold |
| DramCache.AnsweredExactly | dhmp/src/dhmp_transport.c:687-706 | a single request is answered if and only if the connection's use with it, times the number of connections, is within twice the threshold; then it gets its copy if the allocation succeeds |
| DramCache.ApplyAnswersPrefix | dhmp/src/dhmp_transport.c:683-694 | the reply answers a prefix in order, with the regions as allocated, and stops only at the end or at the first object over the share |
| DramCache.FreeOk | dhmp/src/dhmp_transport.c:532-547 | a free leaves no copy of its object, keeps the counters and all other objects |
| CacheClient.ClientRecords.Locate | dhmp/src/dhmp_work.c:216-232 | the hashed lookup finds the client's own record of an object, or none if it has none |
| CacheClient.ClientRecords.AddRecord | dhmp/src/dhmp_work.c:105-114 | a new object's record says that there is no copy, and every other lookup is unchanged |
| CacheClient.ClientRecords.TakeRecord | dhmp/src/dhmp_work.c:175-183 | the object's record, and no other, leaves the table |
| CacheClient.ClientRecords.ClearDramResponse | dhmp/src/dhmp_transport.c:814-843 | every named record, found through the hash table, forgets its copy and one outstanding reply is counted off |
| CacheClient.ClientRecords.ApplyDramResponse | dhmp/src/dhmp_transport.c:744-781 | every named record, found through the hash table, learns its copy, or that there is none, and one reply is counted off |
| CacheSafety.StartMallocOk | dhmp/src/dhmp_work.c:88-96 | sending an allocation request keeps the protocol invariant |
| CacheSafety.ServeMallocOk | dhmp/src/dhmp_transport.c:274-322 | so does serving it: the new object has no copy and its owner will hear of it |
| CacheSafety.FinishMallocOk | dhmp/src/dhmp_work.c:98-117 | and receiving the reply or the error |
| CacheSafety.StartFreeOk | dhmp/src/dhmp_work.c:175-196 | the record is unlinked before the request is sent |
| CacheSafety.ServeFreeOk | dhmp/src/dhmp_transport.c:532-563 | the copy and the object go together |
| CacheSafety.FinishFreeOk | dhmp/src/dhmp_work.c:198-203 | the client is idle again |
| CacheSafety.StartPollOk | dhmp/src/dhmp_poll.c:200-230 | any legal choice of cold and hot objects is safe to send |
| CacheSafety.ServeClearOk | dhmp/src/dhmp_transport.c:783-812 | a clear is proper when it arrives, evicts, and leaves the grant request behind it proper |
| CacheSafety.ServeApplyOk | dhmp/src/dhmp_transport.c:671-728 | a grant request is proper when it arrives, whatever its prefix and its failed allocations |
| CacheSafety.ReceivePollOk | dhmp/src/dhmp_transport.c:814-843 | hearing a reply moves the client's view to what the server already did |
| CacheSafety.StartWriteOk | dhmp/src/dhmp_work.c:271-291 | a write is posted to where the object is |
| CacheSafety.CompleteWriteOk | dhmp/src/dhmp_transport.c:952-963 | when it completes it lands in the bytes the object consists of and changes no other object |
| CacheSafety.StepKeepsInv | dhmp/src/dhmp_transport.c:671-843 | every step of the protocol keeps the whole invariant of all clients and the server |
| CacheTheorems.EveryRunKeepsInv | dhmp/src/dhmp_poll.c:200-232 | so does every run of any clients from established, empty connections |
| CacheTheorems.CacheAgreement | dhmp/src/dhmp_transport.c:730-843 | in any run, for an idle client and a live object: the record names no copy and the table holds none, or the table holds exactly one and the record has its key |
| CacheTheorems.NoOrphanCopies | dhmp/src/dhmp_transport.c:532-547 | every copy in the table belongs to a live object its owner knows or is just giving up |
| CacheTheorems.DramAccounting | dhmp/src/dhmp_transport.c:47-52 | the server's total is the length of all copies, each client's two counters sum to its cached bytes, the normal one is never positive, and the poll one times the number of connections stays within twice the threshold |
| CacheTheorems.DramBudget | dhmp/src/dhmp_transport.c:683-706 | with two connections per client all clients together never cache more than the server's threshold |
| CacheTheorems.FreedBytesStayCharged | dhmp/src/dhmp_transport.c:542-547 | in any run a request is refused exactly when the client's cached bytes, plus all bytes it ever freed while cached, plus the request, times the number of connections, exceed twice the threshold |
| CacheTheorems.NormalCounter | dhmp/src/dhmp_transport.c:542-547 | in any run the normal connection's counter is minus the bytes the client freed while cached |
| CacheTheorems.LockedOutForGood | dhmp/src/dhmp_transport.c:686-694 | a request that does not fit beside what its client has ever freed while cached is refused then and at every later time |
| Witnesses.ShareCanLeak | dhmp/src/dhmp_transport.c:686-694 | for every number of connections whose share holds anything at all there is a run of the whole server (malloc, grant, free, malloc, ask) with a length the allocator grants and the share would hold, ending with the request refused although the table is empty and the allocation would succeed |
| CacheProgress.ServiceEnabled | dhmp/src/dhmp_work.c:98-99 | a client that waits is never stuck: a request of it can be served or a reply heard, even if every allocation fails |
| CacheProgress.CountsDown | dhmp/src/dhmp_poll.c:232 | in any run, while a client waits, its distance from being idle is counted down by its own services and by nothing else |
| CacheProgress.BusyWaitEnds | dhmp/src/dhmp_work.c:198-199 | in any run a client is idle again at the latest after four of its messages have been dealt with |
| CacheRace.ClearOvertakesWrite | dhmp/src/dhmp_transport.c:793-800 | if a clear is served before a posted write lands, the object has what was written if and only if the clear does not name it or the write changes nothing |
| CacheRace.GrantOvertakesWrite | dhmp/src/dhmp_transport.c:697-706 | if a grant is served before a posted write lands, the write is in the object if it was not granted a copy; otherwise the object is the new copy, untouched by the write |
| Witnesses.WriteCanBeLost | dhmp/src/dhmp_work.c:271-279 | a run of the whole server that ends with a posted write which the clear of its object would lose |
| CacheTheorems.ReadSeesRecord | dhmp/src/dhmp_work.c:206-251 | a read goes to where the object's bytes are and returns everything the client last wrote there |
| CacheTheorems.WrittenContentSurvives | dhmp/src/dhmp_work.c:253-298 | in any run a written byte is what later reads return, through evictions, other writes and other clients, until it is rewritten or the object is freed or granted a copy |
| CacheTheorems.GrantReplacesContent | dhmp/src/dhmp_transport.c:700-706 | a granted object consists of what the new region held: nothing is copied into it |
| FlatMemory.StoreInObject | dhmp/src/dhmp_transport.c:649 | in one array of bytes a write or write-back into a live object changes that object's bytes and no other's |
| FlatMemory.ClearHolds | dhmp/src/dhmp_transport.c:793-803 | after a whole clear request memory holds the bytes of every object and nothing outside the objects was written |
| JointServer.ObjectsSeparated | dhmp/src/dhmp_transport.c:232-234 | live objects of the cache occupy separate ranges of memory because the allocator's held regions do |
| JointServer.AnswerIsNew | dhmp/src/dhmp_transport.c:285-299 | what the allocator grants is an address, and a range, of no live object |
| JointServer.CarriedIsHeld | dhmp/src/dhmp_transport.c:532-542 | a free request that arrives names a region its sender holds |
| JointServer.StepKeepsInv | dhmp/src/dhmp_transport.c:274-564 | every step of allocator, cache and memory together is allowed in both models, keeps both invariants, keeps objects and regions the same things, keeps memory holding every object, and writes no byte outside live objects |
| JointServer.CacheProjection | dhmp/src/dhmp_transport.c:532-574 | every run of the whole server is, seen from the cache, a run of the cache protocol |
| JointServer.PoolProjection | dhmp/src/dhmp_transport.c:542-553 | seen from the pool, every step is an enabled request or changes nothing, so no free of a region that is not outstanding ever arrives |
| JointServer.MemoryHoldsWritten | dhmp/src/dhmp_work.c:243-244 | in any run, what a client last wrote to an object that is not cached is what memory holds at the object's address |
| PollRound.HandleCacheModel | dhmp/src/dhmp_poll.c:33-78 | cold, hot and the requested size are those of the declarative split of the sorted array, overlooked object included |
| PollRound.SkipUncached | dhmp/src/dhmp_poll.c:44-45 | the left pointer passes uncached objects only |
| PollRound.SkipCached | dhmp/src/dhmp_poll.c:47-48 | the right pointer passes cached objects only |
| PollRound.ScanDown | dhmp/src/dhmp_poll.c:66-77 | stopping at the threshold misses no uncached object |
| PollRound.Met | dhmp/src/dhmp_poll.c:42-64 | where the pointers stop fixes the split, and whether an object is overlooked |
| PollRound.SwapBalanced | dhmp/src/dhmp_poll.c:50-63 | as many hot partners as cold objects |
| PollTheorems.SwapIsTopK | dhmp/src/dhmp_poll.c:42-64 | evicting the cold and admitting their partners leaves as many objects cached as before, a suffix of the array: none outside is accessed more often than any inside |
| PollTheorems.ListsAreProper | dhmp/src/dhmp_poll.c:33-78 | cold objects are cached, hot ones are not and reach the threshold, no list repeats a position, hot never gets hotter |
| PollTheorems.HotIn | dhmp/src/dhmp_poll.c:66-77 | every uncached considered object is hot, except exactly the one where the pointers meet on it |
| PollTheorems.NotAskedExactly | dhmp/src/dhmp_poll.c:66-77 | an uncached entry is not asked for exactly if it has as many entries above it as are cached in all and the one right above it, if any, is not cached |
| PollTheorems.ColdExactly | dhmp/src/dhmp_poll.c:42-64 | given up are exactly the cached entries with at least as many entries above them as are cached in all |
| PollTheorems.EmptyCacheOverlooksHottest | dhmp/src/dhmp_poll.c:66 | with nothing cached every considered object is requested but the most accessed one |
| PollSelect.ScanTable | dhmp/src/dhmp_poll.c:125-198 | in table order, pool mode asks for exactly the accessed uncached objects that reach the threshold, and cache mode compares exactly the accessed objects that reach it or are cached, each with its count, length and flag; the size is the sum of the hot lengths and all counters are reset |
| PollSelect.ComparedExactly | dhmp/src/dhmp_poll.c:176-192 | the positions of the table that cache mode compares, and what is recorded of each |
| PollSelect.AskedExactly | dhmp/src/dhmp_poll.c:164-174 | the positions of the table that pool mode asks for |
| PollSelect.PoolRoundIsLegal | dhmp/src/dhmp_poll.c:164-174 | a pool-mode request is one the protocol accepts |
| PollSelect.CacheRoundIsLegal | dhmp/src/dhmp_poll.c:176-208 | so are both requests of cache mode, for any sorting of ties |
| PollTable.ComparedInRound | dhmp/src/dhmp_poll.c:176-208 | sorting included, an object is compared, under its own count, if and only if it was accessed and reaches the threshold or is cached |
| PollTable.KeptOrBeaten | dhmp/src/dhmp_poll.c:42-64 | an accessed cached object is given up unless every uncached one accessed more often, and often enough, is asked for in exchange for a given-up one |
| PollTable.PartnersAreHotter | dhmp/src/dhmp_poll.c:42-64 | each object asked for in exchange has no copy and was accessed at least as often as every object given up |
| PollOutcome.RoundLeavesCached | dhmp/src/dhmp_poll.c:204-230 | after clear and apply have been served client and server agree; of the considered objects those cached are exactly the cached ones that were not cold and the hot ones that got a copy, and no other object's state changed |
| PollOutcome.TopKAfterRound | dhmp/src/dhmp_poll.c:42-64 | the top of the array, as long as the cache held, is cached after the round if and only if the partners' allocations succeed and they fit the share once the cold objects are gone; whatever else is cached was requested as hot |
| PollOutcome.PrefixGranted | dhmp/src/dhmp_transport.c:683-716 | the first n requests all get copies if and only if their allocations succeed and all n fit beside what the connection has used |
| PollOutcome.PartnersNoLonger | dhmp/src/dhmp_poll.c:50-63 | partners together no longer than the cold objects meet that condition when allocation succeeds |
| PollInRun.RoundInRun | dhmp/src/dhmp_poll.c:200-232 | in any run, between beginning a round and being idle again, a client's records become what its counter allowed when the round began and the allocations made for it yielded, whatever other clients did in between, and the server agrees |
| PollInRun.TopKInRun | dhmp/src/dhmp_poll.c:204-230 | in any run the outcome of a round is the one above: which objects are cached, that no other object of the client changed, and the exact condition for the top of the array |
| PollTable.TopOfTableInRun | dhmp/src/dhmp_poll.c:125-230 | the same from the table itself, for any sorting of ties: as many of the compared objects as had copies, none accessed less often than one left out, all have copies after the round if and only if the allocations for those to be exchanged succeed and they fit; objects not compared are as before |
| PollOutcome.ClearUsed | dhmp/src/dhmp_transport.c:783-812 | a clear reduces the connection's and the server's counter by all it names, cached or not |
| Witnesses.RoundCanFail | dhmp/src/dhmp_poll.c:210-229 | for every number of connections whose share holds anything at all there is a run of the whole server in which a round evicts the only cached object for a hotter one that does not fit, and leaves the cache empty |
| PollOutcome.SizeAfterRound | dhmp/src/dhmp_transport.c:683-694 | with all allocations successful the cache ends with what it held, less the cold objects, plus the granted prefix |
| SendPool.SendMrList.GetMr | dhmp/src/dhmp_transport.c:1768-1838 | the first listed buffer that is long enough, which leaves the list; only if there is none a new one of exactly the length; the buffer is then in the caller's hand and nowhere else; fails exactly if memory or registration is missing, and then nothing changes |
| SendPool.SendMrList.PutBack | dhmp/src/dhmp_transport.c:955-959 | given back from the hand, every buffer is again in exactly one place; it goes to the front and nothing else moves |
| SendPool.PutBackThenTake | dhmp/src/dhmp_transport.c:1893-1896 | a buffer put back is handed out next for a length if and only if it can hold it, and the list is then as before |
| SendPool.TakeIsFirstFit | dhmp/src/dhmp_transport.c:1795-1833 | the buffer taken is the first one behind buffers that are too short, or, when all are, a new one of exactly the length |
| SendPool.CompletedIsNext | dhmp/src/dhmp_transport.c:952-963 | a transfer that has completed leaves its buffer to the next one it is long enough for |
| SendPool.SendMrList.Start | dhmp/src/dhmp_transport.c:1840-1875 | starting a read or write takes a buffer for a short transfer only and keeps the pool's invariant, whether the task cannot be allocated, the post fails or the transfer gets under way |
| SendPool.SendMrList.Finish | dhmp/src/dhmp_transport.c:952-963 | a finished transfer gives its buffer back and keeps the invariant |
| SendPool.SendMrList.Drop | dhmp/src/dhmp_transport.c:977-984 | a completion with an error drops a short write and its buffer, and leaves any other transfer waiting |
| SendPool.StepKeepsInv | dhmp/src/dhmp_transport.c:1840-1965 | every start, completion and error leaves each buffer in exactly one place and long enough for its transfer |
| SendPool.NeverSharedInRun | dhmp/src/dhmp_transport.c:1768-1838 | in any interleaving no two transfers share a buffer and none in use is in the list |
| SendPool.LossesExactly | dhmp/src/dhmp_transport.c:1848-1876 | the buffers lost are as many as the short transfers that failed to start although their buffer was obtained, plus the short writes that completed with an error |
| SendPool.NothingLost | dhmp/src/dhmp_transport.c:1893-1897 | in a run without such events every buffer ever made is in the list or in exactly one transfer |
| SendPool.MadeToMeasure | dhmp/src/dhmp_transport.c:1795-1822 | in any run every buffer, wherever it is, was made for a transfer of exactly its length, at a moment when no listed one was long enough |
| SendPool.CreatedGrows | dhmp/src/dhmp_transport.c:1795-1822 | the number of buffers grows exactly when a short transfer finds none that is long enough |
| Murmur3.MurmurHash3 | dhmp/src/murmur3_hash.c:71-129 | the loop, the tail switch and the finalisation compute the recursive definition |
| Murmur3.GatherTail | dhmp/src/murmur3_hash.c:106-113 | the fall-through switch gathers the one to three tail bytes little-endian |
| Murmur3.FinalMix | dhmp/src/murmur3_hash.c:56-65 | the five updates compute the composition proved injective |
| Murmur3.MixInjective | dhmp/src/murmur3_hash.c:90-92 | mixing a block loses nothing |
| Murmur3.RoundInjective | dhmp/src/murmur3_hash.c:86-97 | a round is injective in the state and in the block |
| Murmur3.FmixInjective | dhmp/src/murmur3_hash.c:56-65 | the finalisation is a bijection on 32-bit words |
| Murmur3.BlockInjective | dhmp/src/murmur3_hash.c:71-129 | keys of equal length that differ in one 4-byte block only have different hashes |
| Murmur3.TailInjective | dhmp/src/murmur3_hash.c:102-118 | so do keys that differ in the tail only |
| Murmur3.ThreeByteKey | dhmp/src/murmur3_hash.c:71-129 | the three bytes of "abc" hash to the value published for a zero seed |
| Murmur3.AddressesSharingAHalf | dhmp/src/dhmp_work.c:43-53 | two 8-byte addresses that share either half have the same key only if they are equal |
| HashIndex.SameBucketForTwoNodes | dhmp/src/dhmp_work.c:43-53 | yet 0x7f5a01c00010 on servers 0 and 1 fall into the same bucket, 156 |
| AddrTable.PoolAddrRoundTrip | dhmp/src/dhmp_work.c:15-38 | server number and address come back from a pool address if and only if the address has no bits above 47 |
| AddrTable.Table.Insert | dhmp/src/dhmp_work.c:59-68 | the record goes in front of the bucket of its pool address; for a new object every record stays in its own bucket and no object has two |
| AddrTable.Table.Lookup | dhmp/src/dhmp_work.c:139-162 | finds a stored record if and only if no newer one of the bucket shares its server-side address; with one server it is always right, misses included |
| AddrTable.Table.Remove | dhmp/src/dhmp_work.c:176-183 | the record the lookup finds is unlinked, nothing else changes, and the table stays in order |
| AddrTable.Table.Mark | dhmp/src/dhmp_transport.c:828-838 | the record the lookup finds is told where the copy is, and the table stays in order |
| AddrTable.LookupIsRightIff | dhmp/src/dhmp_work.c:149-153 | a stored object's own record is found if and only if no newer one of the bucket shares its server-side address |
| AddrTable.OneServerLookup | dhmp/src/dhmp_work.c:139-162 | with one server every lookup is right, misses included |
| AddrTable.TwoServersCanAlias | dhmp/src/dhmp_work.c:151 | a concrete pair of live objects for which the lookup returns the wrong one |
| LinuxList.InitListHead | dhmp/include/linux/list.h:56-60 | a ring of the head alone |
| LinuxList.AddBetween | dhmp/include/linux/list.h:68-76 | insertion into the ring behind element k, `next` and `prev` inverse again |
| LinuxList.ListAdd | dhmp/include/linux/list.h:86-89 | insertion behind any element, which for the head is the front |
| LinuxList.ListAddTail | dhmp/include/linux/list.h:100-103 | insertion before any element, which for the head is the end |
| LinuxList.ListDel | dhmp/include/linux/list.h:112-134 | removal of element k; the removed element is poisoned |
| LinuxList.ListEmpty | dhmp/include/linux/list.h:207-210 | true if and only if there are no entries behind the head |
| LinuxList.EntriesAfter | dhmp/include/linux/list.h:86-134 | seen from the head these are prepend, append and removal, and removal undoes insertion |
| LinuxList.MoveToFront | dhmp/src/dhmp_transport.c:494-496 | moving an entry between two lists changes those two and leaves any third one alone |
| LinuxList.HlistAddHead | dhmp/include/linux/list.h:667-675 | prepends to a hash chain and keeps every back pointer right |
| LinuxList.HlistDel | dhmp/include/linux/list.h:643-657 | removes a node without knowing its head and keeps every back pointer right |
| NodeSelect.NodeChooser.Choose | dhmp/src/dhmp_client.c:18-39 | the wrapping loop returns the first connected node from the index on, cyclically, and where it leaves the index |
| NodeSelect.SelectAdvances | dhmp/src/dhmp_client.c:22-36 | one choice returns the next connected node in cyclic order and moves on by one, wherever the index points |
| NodeSelect.ChoicesCycle | dhmp/src/dhmp_client.c:18-39 | the t-th of any number of choices is t places further round the connected nodes |
| NodeSelect.RoundRobinIsFair | dhmp/src/dhmp_client.c:18-39 | with k nodes connected any k consecutive choices return each of them exactly once |
| NodeSelect.NullIffNoneConnected | dhmp/src/dhmp_client.c:38 | no node is returned if and only if none is connected |
| NodeSelect.SelectIsNearest | dhmp/src/dhmp_client.c:22-36 | the node chosen is the first connected one from the index on, cyclically, and the index moves behind it |
| NodeSelect.FailedChoiceKeepsTurn | dhmp/src/dhmp_client.c:22-38 | a choice that finds no node connected leaves every later choice as if it had not been made |
| NodeSelect.NoneIsOvertaken | dhmp/src/dhmp_client.c:18-39 | through any coming and going of connections, no node is chosen twice without every other one in between that was connected whenever any node was |
| NodeSelect.OutagesAreSkipped | dhmp/src/dhmp_client.c:18-39 | outages of all nodes between the choices change no other choice |
| NodeSelect.FairThroughOutages | dhmp/src/dhmp_client.c:18-39 | any choices in which the same k nodes are connected k times, and otherwise none is, return each of the k exactly once |

## Left out

- RDMA verbs, connection set-up and teardown, epoll, configuration, logging, the watcher and the web interface: foreign calls and plumbing. Channels are reliable FIFOs between established pairs, and the set of connections is fixed.
- `malloc` and `ibv_reg_mr` return fresh, separate memory and keys or fail; a failing `malloc` of a block structure, which leaves `max_index` stale, is assumed not to happen.
- `nr_free` is not modelled: the free path does not maintain it and nothing reads it.
- BuddyArea.Area.GetFreeBlock: a failing `malloc` in the middle of a split is not modelled.
- BuddyArea.Area.constructor: the insertion into a list is done by its callers, NvmServer.Server.PushArea and NvmServer.Server.MallocMoreArea.
- NvmServer.Server.FreeRequestHandler: requires that the source's behaviour is defined (`DefinedFree`): the tests for "not found" at lines 489 and 522 of dhmp/src/dhmp_transport.c compare with the wrong list head, and the block path indexes its table unchecked. It covers the NVM side; the DRAM side is DramServer.DramTable.FreeDram, and JointServer joins the two.
- NvmServer.Server.FreeOneBlock: not defined for a block that is no aligned block of the area with its key.
- NvmServer.Server.FreeOneArea: not defined for a key of no large region, where the source takes the list head for an area.
- NvmServer.Server.FreeMoreArea: the same.
- NvmPool.FreeOneBlock: for a region that is no block of the area found, where the source reads past its table, the model leaves the pool as it is.
- CacheSafety.StartFreeOk: assumes no own write in flight to the freed object, since the handler does not wait for one; what overtaking does to a write is stated in CacheRace for clears and grants only.
- CacheSafety.StartPollOk: assumes no own write in flight at all; the poll round does not wait for writes to complete; CacheRace states what happens if it overtakes one.
- CacheSafety.StartWriteOk: writes longer than the object are not modelled; the source passes the length on unchecked.
- CacheClient.ClientRecords.ApplyDramResponse: leaves out `res_dram_size`, as do its siblings; server-side addresses are assumed to be below bit 48, as user addresses are.
- The work handlers of dhmp/src/dhmp_work.c are steps of the protocol rather than methods; what they do to the address table are the methods of CacheClient.
- CacheTheorems.CacheAgreement: one server. The reply handlers look up their connection for `res_dram_size` in the wrong array; nothing here depends on that field.
- Non-atomic updates of `poll_num`, torn `memcpy`, and more than `DHMP_MAX_OBJ_NUM` objects in a round: a handled message is one atomic step and the arrays are unbounded.
- PollRound.HandleCacheModel: takes the result of `qsort` as a sorted permutation, with thresholds and access counts as natural numbers.
- Threshold, benefit and hit-ratio updates in floating point, simulated latency, and the debugging strings written into fresh memory.
- Areas, buckets and pools keep their entries in sequences; the pointer surgery that implements these is proved in LinuxList only. The poison values there are null and a marker.
- SendPool.StepKeepsInv: no successor state where the process ends: a write that cannot be posted exits, and a task that can be allocated for a buffer that cannot be had follows a null pointer.
- Widths of sizes and counters are unbounded; the hash works on 32-bit words as the source does.
