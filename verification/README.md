# Redox kernel: a verified model of its memory management and its concurrent protocols

The project models the parts of the Redox kernel whose correctness is hardest to see by reading: the
buddy allocator, copy-on-write address spaces, the TLB shootdown, reference counts under concurrency,
the map of user grants and holes, buffers lent and calls made to user schemes, the boot memory map, wait
queues, the scheduler, event propagation, file descriptor tables and the re-entrant kernel mapper lock.

Code that updates structures in place is modelled as classes and methods with loops, proved against
specifications on values. Protocols between CPUs or contexts are state machines: one step per atomic
operation or lock-protected block, any number of participants, any interleaving, under sequential
consistency. Each machine has an invariant kept by every step and a theorem about every state of every run.

| file | models |
|---|---|
| `Wrappers.dfy`, `Helpers.dfy` | shared definitions |
| `Dyadic.dfy`, `BuddySpec.dfy`, `FreeList.dfy`, `Sections.dfy` | frame allocator: blocks, free lists, boot-time sections |
| `RefCounts.dfy`, `RefWord.dfy` | the reference count word, alone and under interleaving |
| `CopyOnWrite.dfy`, `UserMemory.dfy` | address spaces of anonymous memory: map, fault, fork, unmap |
| `TlbShootdown.dfy`, `TlbOperations.dfy` | flush, flag, acknowledge, free; switching address spaces |
| `FrameSafety.dfy` | copy-on-write memory and the shootdown together |
| `FrameSource.dfy` | user memory fed from the buddy allocator |
| `OrderedMap.dfy`, `Intervals.dfy`, `GrantMaps.dfy`, `UserGrants.dfy` | grants, holes, search for room, unmapping |
| `Captures.dfy` | lending a caller's buffer to a scheme and taking it back |
| `SchemeCalls.dfy` | requests to user schemes, cancellation and hand-over of borrowed pages |
| `BootMemory.dfy`, `Boot.dfy` | registering regions, cutting out reservations, coalescing; from there to the allocator |
| `ReadBuffers.dfy`, `WaitQueues.dfy` | wait queues, and copying queued values to readers |
| `Scheduler.dfy`, `Events.dfy`, `KernelMappers.dfy` | scheduling, events, the kernel mapper lock |
| `FileTables.dfy`, `FdTables.dfy` | file descriptor tables |

Conventions: frames and pages are naturals; a page table is a map from pages to frames with a write bit;
numbers are unbounded except where the width matters (the reference count word, the saturating 64-bit
addresses of the boot map). The dyadic arithmetic of the allocator is written with halving (`Cell`) instead
of bit masks.

## Findings

What the model shows about the code beyond its documentation. "Latent" marks a behaviour that none of the
repository's own callers can bring about.

- Reading a wait queue: a read whose buffer is a whole number of values long, or holds everything queued, gets
  each value once. Any other read copies part of a value and leaves it on the queue, so the next read copies it
  again. `WaitQueues.DeliveredOnce` proves that this is exactly when bytes are delivered twice, and
  `ReadBuffers.HalfValueTwice` is an instance with a buffer of one and a half values. Readers pass the user's
  buffer on as it is (src/event.rs:39-42, src/scheme/user.rs:779-790); for queues of bytes the case cannot arise.
- Freeing a block panics when merging would probe the block at frame 0, because a frame at address zero
  cannot be represented. `FreeLists.FreeList.Deallocate` states exactly when: some `m` below the top order
  exists such that the freed block and otherwise only free frames make up `[2^m, 2^(m+1))`.
  `FreeLists.LowestBlockPanics` is such a run for every `m`. On x86 memory is used from 0x100000, frame 256, on
  (src/arch/x86_shared/start.rs:117-119), and the bump allocator takes the first usable frame for the root page
  table before the frame allocator exists (src/startup/memory.rs:450-452). So the least possible case there is
  `m = 9`, the frames `[512, 1024)`, and it arises only where the bump allocator stops at or below frame 512.
- Page 0 cannot reach the frame allocator, though only x86 excludes it by a low limit: it is the first usable
  frame if it is usable at all, so the bump allocator has handed it out before `init_sections` sees what is left
  (src/startup/memory.rs:450-452, src/memory/mod.rs:512-525). `Boot.InitMemory` starts from there.
- The array of boot areas cannot overflow: there are never more areas than registered entries
  (`BootMemory.MemoryMap.FreeAreas`).
- `munmap_inner` never returns `EINVAL`. With pins overridden it fails an assertion exactly when the span meets a
  file mapping with a pin count (`UserGrants.UserGrants.Munmap`; `UserGrants.FileUnmapped` has such runs). The
  callers that override pins (src/scheme/user.rs:1043, 1462) name spans the kernel itself mapped for a request. On
  those the assertion holds, whatever the scheme maps and unmaps meanwhile (`Captures.LendAndRelease`). The second
  caller unmaps in the space the span was mapped in, so there the case is latent. The first unmaps in the
  responder's current space; that it is the same space is not checked there and not modelled.
- Lending a buffer is not all or nothing. When a part of it cannot be made after another was mapped, the parts
  made stay in the scheme's space, pinned. `Captures.FailureLeaves` proves that the space looks as before exactly
  when the part that failed is the first one.
- A frame can be with the allocator while a CPU still caches a translation to it (`FrameSafety.LingersAfterFree`).
  A CPU that leaves an address space clears its `used_by` bit before it loads another table
  (src/percpu.rs:160-181), so a flush in between does not ask it. `FrameSafety.FreedUncached` excludes this for
  every CPU outside that stretch of code. Inside it the CPU runs kernel code only, and loading the table drops the
  cache.
- `find_free_near` with an aligned `min` returns the lowest free run at or above it. With an unaligned `min` it may
  return a run that starts below: exactly when the page holding `min` and the `count` pages after it are all free
  (`UserGrants.UserGrants.FindFreeNear`; `UserGrants.UnalignedMinGoesBelow` is an instance). Latent: every caller
  passes `mmap_min`, which is kept aligned (src/scheme/proc.rs:1134-1138).
- `bulk_insert_files_upper_manual` with handles that all carry the upper table's tag puts each file in a slot of
  its own. It checks each handle in the table its tag names but always writes to the upper table, so in general it
  keeps the count of open files right exactly when the slots, without their tags, are distinct and free in the
  upper table (`FdTables.FdTbl.BulkInsertUpperManual`; `FdTables.ManualCounterexamples` has two instances).
  Latent: its only caller adds the tag to every handle (src/scheme/user.rs:1399-1404).
- `align_up` saturates, so a reservation that reaches into the topmost page of the address space is rounded
  down; this is harmless since no free entry ever reaches that page (`BootMemory.EntryIs`).

## Model

| member | source | states |
|---|---|---|
| `BuddySpec.FreeRunInOneBlock` | src/memory/mod.rs:77-82 | Completeness: with no two free buddies, every wholly free aligned run lies inside one free block of at least its order |
| `BuddySpec.FreeIsNotUsed` | src/memory/mod.rs:69-233 | Conservation: a managed frame is free exactly when no block in use holds it |
| `BuddySpec.NewBlockWasFree` | src/memory/mod.rs:69-144 | A block that was handed out consists of frames that were all free |
| `BuddySpec.SplitKeepsInv` | src/memory/mod.rs:113-130 | Halving a block keeps the tiling, the lists and the absence of free buddies |
| `BuddySpec.MergeKeepsInv` | src/memory/mod.rs:157-213 | Absorbing a free buddy keeps the tiling, the lists and the absence of free buddies |
| `BuddySpec.SiblingIsHead` | src/memory/mod.rs:163-190 | The frame a merge probes is always the head of a block, and of one no larger than the block being freed, so the word read there is never a stale interior one |
| `BuddySpec.FloatingStuck` | src/memory/mod.rs:157-213 | A free that stops merging elsewhere was never going to probe frame 0 |
| `FreeLists.FreeList.constructor` | src/memory/mod.rs:511-760 | After boot every frame of every free area is in exactly one block; blocks whose head lies below the bump offset are withheld, all others are free |
| `FreeLists.FreeList.AppendPage` | src/memory/mod.rs:651-679 | Appending a boot block at the end of its list keeps the lists doubly linked and the blocks a tiling |
| `FreeLists.FreeList.Allocate` | src/memory/mod.rs:62-144 | None exactly when no naturally aligned run of that order is wholly free; otherwise such a run, nothing else changes, and used plus free frames stay constant |
| `FreeLists.FreeList.Pop` | src/memory/mod.rs:77-109 | Taking the first block of a list keeps every list well linked |
| `FreeLists.FreeList.Split` | src/memory/mod.rs:113-134 | Upper halves become the only blocks of lists that were empty; the block is left at the wanted order |
| `FreeLists.FreeList.Deallocate` | src/memory/mod.rs:146-233 | The block becomes free and merges with every free buddy; panics exactly when the merging would reach frame 0 |
| `FreeLists.FreeList.TryMerge` | src/memory/mod.rs:157-213 | One probe of the buddy: absorbed exactly when it is a free block of the same order |
| `FreeLists.FreeList.Unlink` | src/memory/mod.rs:193-206 | Removing a block from the middle of a list keeps the list doubly linked |
| `FreeLists.FreeList.Push` | src/memory/mod.rs:214-229 | Pushing a block to the front keeps the list doubly linked, and no buddies are both free |
| `FreeLists.LowestBlockPanics` | src/memory/mod.rs:157-165 | A run, for every `m`, in which freeing the block `[2^m, 2^(m+1))` panics |
| `Sections.SplitArea` | src/memory/mod.rs:591-624 | An area cut at section boundaries: exact cover, no more cuts than cells touched |
| `Sections.MergeRun` | src/memory/mod.rs:573-578 | Adjoining areas become one, within the section budget of the parts |
| `Sections.BuildSections` | src/memory/mod.rs:527-628 | Sections cover the areas exactly, ascending, and fit the array that was sized beforehand |
| `Sections.TileSection` | src/memory/mod.rs:687-742 | Order-by-order peeling tiles a section exactly with disjoint aligned blocks, whose buddies lie outside the section below the top order |
| `Sections.TileAll` | src/memory/mod.rs:687-742 | The blocks of all sections tile the areas, and no block below the top order has its buddy inside any area's section |
| `RefCounts.RawRoundTrip` | src/memory/mod.rs:919-947 | A count that fits the word is read back as stored |
| `RefCounts.RawCanonical` | src/memory/mod.rs:919-947 | Every used word with a count is a stored count, up to the sharing bit of a count of one |
| `RefWord.Step` | src/memory/mod.rs:796-850 | Every load, store and read-modify-write of every owner keeps the invariant |
| `RefWord.CountedRight` | src/memory/mod.rs:796-850 | In every run the used bit stays set, the count equals references plus adds being undone, nothing panics, and exactly one owner is told to free, when no reference is left |
| `RefWord.ToldIsLast` | src/memory/mod.rs:820-850 | An owner is told to free exactly when its reference is the last |
| `RefWord.KindStable` | src/memory/mod.rs:796-818 | Between an owner's load and its write nobody else can change the kind it saw |
| `RefWord.KindIs` | src/memory/mod.rs:796-818 | In every run, from a successful add on and while two references are left, the word reads as Shared exactly if the reference was added as Shared, and as Cow otherwise |
| `RefWord.AddAlone` | src/memory/mod.rs:796-818 | Without interference load and write together are the sequential `add_ref`, including its three errors |
| `RefWord.RemoveAlone` | src/memory/mod.rs:820-850 | Without interference load and write together are the sequential `remove_ref` |
| `CopyOnWrite.WritableIsExclusive` | src/debugger.rs:147-164 | A frame with a writable entry has that entry as its only reference |
| `CopyOnWrite.UnmapStep` | src/context/memory.rs:1928-1940 | Removing an entry and queueing its frame keeps counts equal to references |
| `CopyOnWrite.ReleaseStep` | src/context/memory.rs:2747-2771 | A queued release frees the frame exactly when it was the last reference |
| `CopyOnWrite.MapFreshStep` | src/context/memory.rs:2363-2379 | Mapping a fresh frame keeps the invariant |
| `CopyOnWrite.ShareStep` | src/context/memory.rs:1637-1756 | One more read-only entry to an unwritable frame keeps the invariant |
| `UserMemory.UserMemory.constructor` | src/context/memory.rs:1267-1296 | Only the zero frame is referenced at first |
| `UserMemory.UserMemory.Release` | src/context/memory.rs:2747-2771 | After releases a frame is allocated exactly while it is still referenced |
| `UserMemory.UserMemory.UnmapPage` | src/context/memory.rs:2867-2889 | One page leaves every view, and the full flush queue is drained first |
| `UserMemory.UserMemory.Unmap` | src/context/memory.rs:1856-1968 | Exactly the span's pages leave what programs see |
| `UserMemory.UserMemory.MapZeroed` | src/context/memory.rs:1267-1316 | The span appears reading as zeroes; nothing else is seen to change; exactly the first pages share the zero frame at once |
| `UserMemory.UserMemory.Fault` | src/context/memory.rs:2412-2517 | A fault is refused exactly without the right; otherwise it enables the access without changing any view, or fails for lack of frames changing nothing |
| `UserMemory.UserMemory.Cow` | src/context/memory.rs:2320-2361 | The page gets a writable private copy and no view changes |
| `UserMemory.UserMemory.MapNew` | src/context/memory.rs:2363-2379 | A page without a frame gets a zeroed one and no view changes |
| `UserMemory.UserMemory.Load` | src/context/memory.rs:2395-2517 | A load returns the page's private contents |
| `UserMemory.UserMemory.Store` | src/context/memory.rs:2395-2517 | A store changes one byte of one page of one space, for every observer |
| `UserMemory.UserMemory.Fork` | src/context/memory.rs:149-238 | The new space sees a private copy of every page of the old one |
| `UserMemory.UserMemory.ForkPage` | src/context/memory.rs:1620-1775 | One page is shared read-only and appears in the new space |
| `UserMemory.UserMemory.Run` | src/context/memory.rs:1267-1775 | Refinement: every sequence of map, read, write, fork and unmap over any spaces behaves as private page maps do, and memory runs out only when at least as many pages are granted as there are frames besides the zero frame |
| `UserMemory.Isolation` | src/context/memory.rs:1620-1775 | In every run a page keeps contents and rights until an operation on that very page |
| `UserMemory.TouchedStep` | src/context/memory.rs:1267-1968 | And the operations on a page are no more than that: a mapping or unmapping that succeeds changes exactly the pages it names, a read none |
| `UserMemory.NoLeak` | src/debugger.rs:284-295 | Once nothing is granted every frame but the zero frame is back with the allocator |
| `TlbShootdown.Step` | src/percpu.rs:76-185 | Every step of every CPU keeps the protocol's invariant |
| `TlbShootdown.NoStaleTranslation` | src/context/memory.rs:2822-2864 | In every run, when a flush frees frames each CPU using the space has acked and caches only translations in the page table; a CPU in user mode runs on its current space's table and caches nothing but entries in force or awaiting their flush |
| `TlbShootdown.AllFlushed` | src/context/memory.rs:2852-2855 | Enough acks mean every CPU in `used_by` has acked, has no request left and caches nothing stale |
| `TlbShootdown.AcksExactlyOnce` | src/percpu.rs:126-141 | In every flush of every run, each CPU that uses the space acks to it exactly once before the flush frees, except the initiator, and no other CPU does |
| `TlbShootdown.NeverRetries` | src/percpu.rs:100-110 | In every run the flag of a CPU about to be flagged is down, so the swap never has to be retried |
| `TlbShootdown.BitsFrozen` | src/context/context.rs:362-383 | Over any stretch of a run in which one CPU keeps a space's write lock, the space's `used_by` bits stay the same |
| `TlbShootdown.WaitingMoves` | src/context/memory.rs:2852-2855 | In every run a waiting flush waits for some CPU that can take a step |
| `TlbShootdown.SwitchArrives` | src/percpu.rs:144-183 | In every run, a CPU that set out for a space, or for none, has it as its current one, walks its table and has its bit set when it next runs |
| `TlbOperations.SpaceLeft` | src/percpu.rs:160-167 | Leaving a space nobody writes: only the CPU's place and its bit change |
| `TlbOperations.SpaceEntered` | src/percpu.rs:171-178 | Entering one: it becomes current, its table is loaded with an empty cache, and its bit is set |
| `TlbOperations.NoSpaceEntered` | src/percpu.rs:171-181 | Entering none: the empty table is loaded, and nothing is cached |
| `TlbOperations.RequestHandled` | src/percpu.rs:125-141 | A raised flag is lowered, the cache is dropped, and the current space gets one ack |
| `TlbOperations.FlushStarted` | src/context/memory.rs:2822-2851 | A flush begins with the acks reset and all other users of the space to be asked |
| `TlbOperations.UserFlagged` | src/percpu.rs:100-110 | Asking a CPU raises its flag and counts it |
| `TlbOperations.FlushFrees` | src/context/memory.rs:2852-2864 | With all asked and enough acks nothing is stale, and the CPU's own cache is dropped if it uses the space |
| `TlbOperations.SpaceLocked` | src/context/memory.rs:2822-2864 | The write lock is taken when nobody holds the lock |
| `FrameSafety.Step` | src/context/memory.rs:2747-2864 | Every step of every CPU keeps both invariants and the agreement of page tables, queues and caches |
| `FrameSafety.ReleasedKeeps` | src/context/memory.rs:2747-2771 | Releasing a flush's queued frames returns each to the allocator exactly with its last reference, over all spaces |
| `FrameSafety.CachedIsOwned` | src/context/memory.rs:2822-2864 | In every run, a translation cached by a CPU outside a switch is in its space's page table or its frame awaits that space's flush; the frame is referenced |
| `FrameSafety.FreedUncached` | src/context/memory.rs:2852-2863 | In every run, a frame with the allocator is in the cache of no CPU outside an address space switch |
| `FrameSafety.LingersAfterFree` | src/percpu.rs:160-181 | A run of two CPUs in which a frame is freed while the CPU that has just left its space still caches it |
| `FrameSafety.WritableIsPrivate` | src/context/memory.rs:1637-1756 | Copy-on-write under caching: in every run, a translation that lets a CPU outside a switch write to a frame is awaiting its flush, or the frame has one reference and it is that very page's |
| `FrameSafety.MayCache` | src/context/memory.rs:1637-1756 | A CPU may come to cache any page its space maps, for writing exactly if the entry is writable |
| `FrameSafety.EditKeeps` | src/context/memory.rs:2822-2864 | Any set of table entries taken out and put in under the write lock keeps the shootdown's invariant |
| `FrameSource.Take` | src/memory/mod.rs:65-67 | A frame from the free lists: none exactly when they are empty, and exactly that frame leaves them |
| `FrameSource.Give` | src/memory/mod.rs:235-237 | Exactly that frame joins the free lists, or a panic exactly when the merge would reach frame 0 |
| `FrameSource.MapFresh` | src/memory/mod.rs:1065-1080 | A frame taken from the free lists and mapped: the frames user memory counts as available stay those on the free lists |
| `FrameSource.ReleaseFirst` | src/context/memory.rs:2747-2771 | The same for a queued release, which reaches the free lists exactly with the last reference and panics exactly when freeing the frame does |
| `FrameSource.Release` | src/context/memory.rs:2852-2864 | Draining the queue moves to the free lists exactly the frames that are no longer referenced; it stops only where freeing the frame panics |
| `Intervals.RunInOne` | src/context/memory.rs:911-930 | A run wholly inside maximal intervals lies in one of them |
| `Intervals.ReservedIs` | src/context/memory.rs:932-966 | Reserving removes exactly the run and keeps the holes maximal |
| `Intervals.UnreservedIs` | src/context/memory.rs:967-991 | Unreserving adds exactly the run, joined with both neighbours |
| `GrantMaps.MergedIs` | src/context/memory.rs:992-1032 | Inserting with merges shows the new pages as granted and all others as before |
| `GrantMaps.SplitPages` | src/context/memory.rs:1986-2097 | The three parts of a split grant show every page with the same flags and backing as the whole |
| `GrantMaps.PageTells` | src/context/memory.rs:1062-1102 | What a page shows determines its flags, the kind of its grant, and which file page, frame or space is behind it |
| `GrantMaps.NeighboursPlain` | src/context/memory.rs:1991-2090 | The parts left of a cut grant are neither pinned nor one contiguous block |
| `GrantMaps.MergedFused` | src/context/memory.rs:992-1032 | Inserting leaves no two neighbours that could be one grant |
| `UserGrants.UserGrants.Contains` | src/context/memory.rs:853-859 | The grant that covers a page, exactly if there is one |
| `UserGrants.UserGrants.Conflicts` | src/context/memory.rs:862-875 | Exactly the grants that meet the span, in address order |
| `UserGrants.UserGrants.FindFreeNear` | src/context/memory.rs:897-928 | None exactly when no free run lies at or above `min`; otherwise a free run not above the lowest one; below `min` exactly when `min` is unaligned and its own page and the pages after it are free; a request for no pages is met by any hole ending above `min` |
| `UserGrants.UnalignedMinGoesBelow` | src/context/memory.rs:911-930 | A concrete search that returns a page below an unaligned `min` |
| `UserGrants.UserGrants.Insert` | src/context/memory.rs:992-1032 | Holes stay the exact complement of the grants, as maximal intervals; only the granted pages change; neighbours that can be one grant are one |
| `UserGrants.UserGrants.Remove` | src/context/memory.rs:1033-1037 | The grant's pages become a hole, joined with its neighbours; only those pages change |
| `UserGrants.UserGrants.CutGrant` | src/context/memory.rs:604-652 | Cutting a span out of a grant changes no other page |
| `UserGrants.UserGrants.Munmap` | src/context/memory.rs:569-656 | Success removes exactly the requested pages, and the removed parts hold exactly their flags and backing; EBUSY exactly at a pinned grant, leaving it and everything above; EINVAL never; panics exactly when unpinning meets a pinned file mapping; terminates; unless pins are overridden every pinned grant survives |
| `UserGrants.FileUnmapped` | src/context/memory.rs:1986-1987 | Runs that unmap a page of a file: refused with a pin, a panic when pins are overridden, and success without one |
| `Captures.PartsFill` | src/scheme/user.rs:1481-1486 | The head, the whole pages and the tail of a buffer fill exactly the pages it touches, at its old address and at its new one |
| `Captures.LentPageIs` | src/scheme/user.rs:607-612 | The caller's own pages are lent exactly where they lie wholly inside the buffer, kernel pages at the ragged ends |
| `Captures.CaptureInner` | src/scheme/user.rs:607-779 | No room exactly when no free run of the buffer's pages lies at or above `min`; otherwise the parts before the first failing one are mapped in a free run, pinned, ends as kernel pages and the rest as the caller's, each page in its own place, and no other page changes |
| `Captures.FailureLeaves` | src/scheme/user.rs:618-757 | After a capture in which a part failed, the space looks as before exactly when that was the first part |
| `Captures.LentUnmaps` | src/scheme/user.rs:1462-1467 | A lent span never meets the assertion on overridden pins |
| `Captures.Serve` | src/context/memory.rs:666-734 | Unmapping, and mapping at a fixed address, leave every pinned grant as it was; mapping succeeds exactly on vacant pages, unmapping exactly without a pinned grant, each with just its effect |
| `Captures.LendAndRelease` | src/scheme/user.rs:1437-1470 | A span lent, any mappings and unmappings by the scheme, and the release: the span stays whole until the release, which succeeds and removes just the span; with nothing in between every page is as before |
| `SchemeCalls.StepKeeps` | src/scheme/user.rs:263-465 | Every step of caller, scheme, signal and kill keeps every call's invariant |
| `SchemeCalls.CallsSound` | src/scheme/user.rs:263-465 | In every run: one response at most per call, one Cancel at most and after the request, a response never lies in the slot of a blocked caller, whose slot is still waiting once it has switched, no caller finds its slot gone, EINTR is answered only after Cancel, and the borrowed span is with exactly one side until its single unmapping |
| `SchemeCalls.AnswerIsResponse` | src/scheme/user.rs:1001-1035 | In every run, the answer a caller returns with comes from a response to that very call: ECANCELED under cancellation as EINTR, EINTR without one as EIO, any other as it is |
| `SchemeCalls.CallSends` | src/scheme/user.rs:263-311 | An undisturbed call gets a tag, marks its caller blocked, registers and sends one request |
| `SchemeCalls.CallReturns` | src/scheme/user.rs:313-465 | A response makes the sleeping caller return with it, remove the slot and unmap the span |
| `SchemeCalls.SignalCancels` | src/scheme/user.rs:313-465 | A signal makes the caller send its one cancellation and sleep again |
| `SchemeCalls.KillReturns` | src/scheme/user.rs:316-331 | A killed caller returns at once and leaves its span to the scheme |
| `SchemeCalls.ResponseUnmaps` | src/scheme/user.rs:1035-1044 | The response to a caller that is gone unmaps the span and removes the slot |
| `SchemeCalls.AnsweredCall` | src/scheme/user.rs:981-1056 | A response to a waiting call keeps the call in order, whether its owner is woken or gone |
| `SchemeCalls.OwnCall` | src/scheme/user.rs:316-465 | Each step of a caller keeps its call in order, including the hand-over on a kill |
| `BootMemory.EntryIs` | src/startup/memory.rs:83-102 | Free regions are rounded inwards and reservations outwards, but for the topmost page |
| `BootMemory.WholePagesKept` | src/startup/memory.rs:83-102 | No whole free page below the topmost is lost by rounding |
| `BootMemory.CombinedIs` | src/startup/memory.rs:64-74 | Combining touching areas gives exactly their union and touches nothing new |
| `BootMemory.Coalesce` | src/startup/memory.rs:256-281 | One pass leaves the area touching none of the others, covering the same memory |
| `BootMemory.AddMemory` | src/startup/memory.rs:198-289 | Exactly the part of the area outside all reservations joins the list, which has room whenever it has room for every place an area can begin; the recursion ends |
| `BootMemory.MemoryMap.Register` | src/startup/memory.rs:83-102 | A region is registered unless the table is full |
| `BootMemory.EntryPages` | src/startup/memory.rs:83-102 | A registered free region covers exactly the pages it contains, any other region exactly the pages it meets |
| `BootMemory.LimitIs` | src/startup/memory.rs:413-417 | The limits let through exactly the pages that begin at or above the low one and end at or below the high one |
| `BootMemory.MemoryMap.FreeAreas` | src/startup/memory.rs:410-430 | The areas are exactly the pages, but the topmost, that lie wholly in one free region and within the limits and meet no region of another kind: aligned, disjoint, not touching; the array never overflows |
| `BootMemory.AtMost` | src/startup/memory.rs:284-287 | Separate areas begin at different addresses, so there are no more of them than places to begin |
| `Boot.SortAreas` | src/startup/memory.rs:432 | The areas in address order |
| `Boot.InitMemory` | src/memory/mod.rs:511-760 | Boot as a whole: the allocator manages exactly the frames, from the one on at which the bump allocator stands, that lie wholly in a free region and within the limits and meet no other region; none of them is frame 0 |
| `BootMemory.OnlyFreeMemory` | src/startup/memory.rs:147-195 | No byte handed to the allocator was reported by the bootloader as anything but free |
| `WaitQueues.Step` | src/sync/wait_condition.rs:24-97 | Every step of senders, receivers and signals keeps the invariant |
| `WaitQueues.NoLostWakeup` | src/sync/wait_queue.rs:58-112 | In every run, while a receiver sleeps on a non-empty queue some sender still owes a notify and can move |
| `WaitQueues.WaitReturns` | src/sync/wait_condition.rs:48-97 | In every run a receiver that resumes goes on to read exactly if it was notified, and is interrupted otherwise; one that finds a signal pending is interrupted at once |
| `WaitQueues.ReadTakes` | src/sync/wait_queue.rs:84-102 | A read that finds values copies them, and changes nothing if its buffer faults |
| `WaitQueues.ReadSleeps` | src/sync/wait_queue.rs:66-82 | A read that finds nothing returns, or sleeps on the list if it may block |
| `WaitQueues.SignalInterrupts` | src/sync/wait_condition.rs:78-96 | A signal takes a sleeper off the list and interrupts its read |
| `WaitQueues.SendWakes` | src/sync/wait_queue.rs:104-112 | A send wakes a sleeper, which goes on to read and finds the value |
| `WaitQueues.DeliveredOnce` | src/sync/wait_queue.rs:58-112 | In every run values leave the queue once and in order, and readers get exactly their bytes if and only if every read's buffer was a whole number of values long or held all that was queued |
| `ReadBuffers.ReadStep` | src/sync/wait_queue.rs:84-99 | A read takes off the queue the values it copied whole, and accounts for the bytes of the one it copied in part |
| `ReadBuffers.TwoCopiesAre` | src/sync/wait_queue.rs:84-96 | Wherever the ring buffer is split, the two copies together give the reader the first bytes of the queue |
| `ReadBuffers.CopiesWhole` | src/sync/wait_queue.rs:84-99 | A read copies whole values only, exactly when the buffer is a whole number of them or holds everything |
| `ReadBuffers.HalfValueTwice` | src/sync/wait_queue.rs:84-99 | Two reads with a buffer of one and a half values deliver part of the second value twice |
| `Scheduler.Scheduler.Search` | src/context/switch.rs:177-240 | The first eligible context in cyclic order, else the idle one unless it is the previous; the previous context is never locked again |
| `Scheduler.Scheduler.Switch` | src/context/switch.rs:139-285 | A context stays marked running exactly while it is current on the one CPU it names; the previous context only stops running, the chosen one runs here, runnable, with a wake-up time that has come cleared, and no other context changes |
| `Scheduler.UpdateDecides` | src/context/switch.rs:43-70 | A context is eligible exactly when, not running and allowed here, it is runnable once a wake-up time that has come was applied |
| `Scheduler.CurrentOnce` | src/context/switch.rs:251-285 | No context is current on two CPUs |
| `Scheduler.RunsInTime` | src/context/switch.rs:195-240 | A context that is eligible on a CPU, and stays so until it is run there, is run within fewer successful switches than there are contexts |
| `Scheduler.TakingTurns` | src/context/switch.rs:195-240 | A run of two contexts taking turns that meets the hypotheses of the fairness theorem |
| `Scheduler.Nearer` | src/context/switch.rs:195-214 | Each switch brings a waiting candidate nearer in the cyclic order |
| `Events.EventRegistry.Register` | src/event.rs:148-158 | What each file reaches afterwards, for all flags |
| `Events.NextIs` | src/event.rs:234-244 | Queue `q` notifies exactly the live queues that wait for number `q` of the event scheme to become readable |
| `Events.EventRegistry.TriggerInner` | src/event.rs:192-222 | One event for each matching registration at a live queue |
| `Events.EventRegistry.Trigger` | src/event.rs:224-247 | Ends for every registry and propagates exactly once from each queue of the least closed set, sending each event once |
| `KernelMappers.OneWriter` | src/memory/kernel_mapper.rs:25-74 | In every run at most one guard may write, all live guards belong to the owning CPU, and a new guard may write exactly when no other lives |
| `KernelMappers.LockTakes` | src/memory/kernel_mapper.rs:25-50 | Locking adds one guard, writable if it is the only one, or spins while another CPU has the lock |
| `KernelMappers.DropGives` | src/memory/kernel_mapper.rs:67-74 | Dropping removes that guard, and frees the lock with the last |
| `KernelMappers.NeverLeaked` | src/memory/kernel_mapper.rs:67-74 | The lock is free once no guard lives, whatever the order of drops |
| `FileTables.OccupiedWritten` | src/context/context.rs:727-783 | Writing files to slots raises the number of open ones by their count exactly when the slots are distinct and free |
| `FdTables.FdTbl.AddFileMin` | src/context/context.rs:642-673 | The lowest free slot at or above `min`; None exactly at the limits |
| `FdTables.FdTbl.InsertFile` | src/context/context.rs:703-725 | Exactly the given slot, if free and within the limits |
| `FdTables.FdTbl.RemoveFile` | src/context/context.rs:830-840 | The slot is emptied and the count follows |
| `FdTables.FdTbl.BulkAddPosix` | src/context/context.rs:675-701 | Each file in a slot of its own, the lowest free ones in order; nothing on failure |
| `FdTables.FdTbl.FindFreePosixSlots` | src/context/context.rs:854-872 | The lowest free slots, in order |
| `FdTables.FdTbl.FindFreeUpperBlock` | src/context/context.rs:874-902 | The lowest run of free slots of that length |
| `FdTables.FdTbl.BulkInsertUpper` | src/context/context.rs:727-749 | The lowest run of consecutive free slots of the upper table, one per file |
| `FdTables.FdTbl.BulkInsertUpperManual` | src/context/context.rs:751-783 | Which calls succeed and with what error the others fail, and that the table stays right exactly when the untagged slots are distinct and free in the upper table |
| `FdTables.ManualCounterexamples` | src/context/context.rs:751-783 | Handles that pass the checks and spoil the count |
| `FdTables.FdTbl.BulkGet` | src/context/context.rs:801-811 | All files in order, exactly when every handle is open, distinct and within the limits; otherwise the error of the first handle at fault |
| `FdTables.FdTbl.ForceCloseAll` | src/context/context.rs:904-911 | Every slot is empty and the count is zero |
| `FdTables.FdTbl.BulkRemove` | src/context/context.rs:842-852 | All or nothing, returning the files in order |

## Left out

- Page tables with missing intermediate levels: mapping a page never runs out of memory for the table itself.
- Several spaces with `Provider::External`, shared anonymous memory and file mappings in the copy-on-write model; `GrantMaps.Backing` keeps an external page opaque, because `extract` does not shift its source page.
- `mprotect` and moving mappings: they set the write bit without looking at the reference count.
- `Grant::borrow_fmap`, physically contiguous allocations and their rounding up to a power of two.
- `UserGrants.UserGrants.Munmap`: returns the removed parts instead of the notifications for their files, which only read the parts' provider and size.
- The check that a grant is mapped before it is unmapped: modelled grants are always mapped; page table work of `munmap_inner` is in `UserMemory` instead.
- `UserGrants.UserGrants.FindFreeNear`: the multiplication of the page count by the page size cannot overflow in the model.
- `UserMemory.UserMemory.Run`: limits the number of granted pages to 2^60, so that a reference count cannot overflow; mappings beyond are refused.
- `UserMemory.UserMemory.UnmapPage`: when the queue is full the model removes the entry before draining the queue, as the kernel does, but without other CPUs; those are in `TlbShootdown`.
- Plain readers of an address space's lock in `TlbShootdown`: they only delay writers.
- Wrap-around of the 32-bit ack word: more CPUs than that do not exist.
- The static zero frame in the concurrent reference count model, whose references are taken without owning one.
- More operations in flight on one reference count than 2^61 - 1, where transient adds would leave the count field.
- Calls to user schemes with a timeout, `Fmap` slots, passing file descriptors along with a request, and unmounting.
- The error codes of a read that finds nothing and may not block, `receive`, which nothing calls, and destroying a wait condition that has waiters.
- Contexts that are dropped while they are on a waiters' list or in the scheduler's set.
- The sorting algorithm of the boot areas, which is a library's: `Boot.SortAreas` sorts by insertion.
- The bump allocator of the boot phase, which is a library's: the frame it stands at when `init_sections` begins, which is not frame 0 because it has handed out at least one, and the offset up to which blocks are withheld are parameters.
- Queues created or destroyed while an event is being propagated.
- An interrupt on the same CPU between the two atomic operations of taking the kernel mapper lock.
- Bits of file handles other than the table's tag: `FileTables.Handle` is the decoded form.
- Weak memory orderings; page table walking, cache and TLB instructions; drivers, ACPI, logging and statistics.
- `get_page_info`, signals, ptrace, futexes, pipes and the remaining schemes.
- Destroying an address space: the spaces of `TlbShootdown` and `FrameSafety` live for ever, while a switch drops its reference to the old space before it loads the new table (src/percpu.rs:171).
- `Captures.CaptureInner`: whether a part can be made is a parameter; the contents copied to and from the ragged ends, the checks on the borrowed source pages and a buffer of the scheme's own space, which is not mapped again, are not modelled.
- `FrameSafety.FreedUncached`: does not cover a CPU that has cleared its `used_by` bit and not yet loaded its next table, because there it is false (`FrameSafety.LingersAfterFree`).
