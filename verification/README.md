# Graphics buffers of the U8500 device tree: a verified model

The device tree carries the graphics HAL of an ST-Ericsson U8500 phone: a buffer allocator (gralloc) with its pmem,
framebuffer and hwmem back ends, a 2D blitter library with a copybit module on top, and a hardware composer with a
vsync thread. The pieces are small, but several of them are lock-free, threaded, or lean on integer arithmetic that has
to come out right. This project models those pieces in Dafny and proves what they are relied on for.

Each part is given twice where the code changes things in place: as a specification on values, about which the
properties are proved, and as a class whose methods update their fields as the code does and are proved equal to that
specification. Concurrent parts are step machines: a state, a total `Next` function, a predicate for what can happen,
one for what callers are asked, and `Run` over any schedule. The theorems are about every schedule.

| file | part |
|---|---|
| `PmemWord`, `PmemLock`, `PmemBuffer` | the reader/writer lock of pmem buffers: the 32-bit word, the interleaved steps of any number of threads, and the handle they update |
| `Timespecs`, `VsyncMonitor`, `VsyncContext` | the vsync thread, its clients, and the clock arithmetic under it |
| `BufferTable`, `BufferLocks`, `BufferRegistry` | register and lock counts with lazy mapping: the table, threads that use it, and the table in place |
| `BufferSize` | buffer sizes, alignment, and the memory region of a locked rectangle |
| `BlitRects`, `BlitStretch` | clipping, turning and rescaling blit rectangles; the loop over the clip region |
| `SlotMask`, `Framebuffer`, `FramebufferModule` | framebuffer slots in a bit mask, rotation while slots are in use, and posting |
| `BlitHandles`, `BlitReports`, `BlitHandle` | the table of open blitter handles; reports and callbacks between requesters and the callback thread |
| `LayerCache`, `LayerCacheContext` | the layer cache of the hardware composer |
| `Options` | optional values |

## What callers are asked

These rules are hypotheses of the theorems, in the predicates `Allowed`, `Disciplined` and `Sound`:

- a thread unlocks only what it has locked, after the lock returned, and fewer than 2^30 holds of a pmem buffer are out;
- a pmem buffer is registered and unregistered only while it is not locked and no lock call is in progress;
- an hwmem buffer is locked, unregistered and freed only under a registration of the thread's own;
- a vsync monitor is not enabled while it is being destroyed, and its callbacks are not null;
- nobody requests a blit on a handle while it is being closed, nor later;
- the framebuffer driver reports lines without padding, pixels of whole bytes, and sizes that fit 32 bits.

Where a rule is there because the property fails without it, a lemma gives the run that shows it:
`VsyncMonitor.EnableDuringDestroy`, `BufferLocks.OwnRegistrationNeeded`, `BlitReports.CloseDuringRequest`,
`Framebuffer.PaddedMisfrees`.

## Where the code does not do what one would expect

- `blt_api.h` documents transform codes 5 and 6 as a flip followed by a counter-clockwise quarter turn. `set_rects`
  undoes them in the other order. The model follows the code; `BlitRects.DocumentedExactly` proves that the two agree
  on exactly the other codes, and `BlitRects.HalExactly` the same for the HAL's codes.
- A clip that misses the destination is not recognised as empty, since only sizes of zero are: its request has a
  negative side. `BlitStretch.SubmittedExactly` says for which clips there is a request, `BlitStretch.MissNotIgnored`
  gives one.
- The check of the stretch limits divides by zero when a piece of the destination is so thin that its source rounds to
  nothing: `BlitStretch.FaultsExactly`, `BlitStretch.ThinFaults`.
- A hit of the layer cache takes what the GPU composed last for the frame the cache was filled from. That frame may have
  gone to the display without the GPU; a frame without a list, or with more than 16 layers, may have been composed
  since; and a layer may have been an overlay then. `LayerCache.HitShowsExactly` says when a layer is missing from the
  picture, `LayerCache.HitNeverComposed` and `LayerCache.HitAfterCrowd` give runs.
- A miss at a layer without a handle leaves the grab of an earlier frame in place, so the types of that frame are put
  back: `LayerCache.GrabbedExactly`, `LayerCache.OldTypesRestored`.
- So does a frame of more than 16 layers, and then set reads past the end of the saved types:
  `LayerCache.RestoreOverrunsExactly`, `LayerCache.FaultsExactly`, `LayerCache.RestoreOverruns`.
- When mmap of the framebuffer fails, the structure for it stays; later allocations hand out slots at address 0:
  `Framebuffer.FailedMapForgotten`.
- A lock of a pmem buffer whose mapping fails returns the error but keeps its hold: `PmemLock.ReturnsHolding`.

## Model

| member | source | states |
|---|---|---|
| PmemWord.DecodeInjective | opensource/libgralloc/hwmem_gralloc_pmem.c:57-61 | write bit, mapped bit and count are all there is in the word, so a compare-and-exchange of words compares the three |
| PmemWord.HeldCount | opensource/libgralloc/hwmem_gralloc_pmem.c:344 | the test with the read mask asks whether the count is positive |
| PmemWord.CountRange | opensource/libgralloc/hwmem_gralloc_pmem.c:57-61 | the count is at most 2^30 - 1, and is that exactly when its field is all ones |
| PmemWord.SetWrite | opensource/libgralloc/hwmem_gralloc_pmem.c:357-360 | marking the word for writing changes no other field |
| PmemWord.ClearWrite | opensource/libgralloc/hwmem_gralloc_pmem.c:403-406 | clearing the write bit changes no other field |
| PmemWord.SetMapped | opensource/libgralloc/hwmem_gralloc_pmem.c:380-381 | the atomic or changes no other field |
| PmemWord.Increment | opensource/libgralloc/hwmem_gralloc_pmem.c:361 | `++` adds one hold without a carry into the flags exactly when fewer than 2^30 - 1 are counted |
| PmemWord.Decrement | opensource/libgralloc/hwmem_gralloc_pmem.c:414 | `--` takes one hold away without a borrow from the flags exactly when one is counted |
| PmemLock.StepInv | opensource/libgralloc/hwmem_gralloc_pmem.c:327-420 | every step of every thread, from any state of the invariant, keeps the invariant that ties word, owner field, map mutex and program points together |
| PmemLock.LockSafety | opensource/libgralloc/hwmem_gralloc_pmem.c:336-370 | after any interleaving the count is the number of outstanding holds, WRITE is set exactly when a writer holds and then alone, and with no hold out both are clear |
| PmemLock.WriterReleasesAtOnce | opensource/libgralloc/hwmem_gralloc_pmem.c:397-417 | a writer's releasing exchange succeeds at its first attempt and leaves the word unlocked |
| PmemLock.UnlockFindsItself | opensource/libgralloc/hwmem_gralloc_pmem.c:401-412 | a thread that unlocks a write hold finds its own id in the owner field, and no unlock of a held lock is refused |
| PmemLock.MappedOnce | opensource/libgralloc/hwmem_gralloc_pmem.c:372-387 | at most one mapping is made until the next register or unregister; a lock for software use always returns an address, which is the mapped one if it returned 0; any other lock returns 0 and none |
| PmemLock.OnlySoftwareMaps | opensource/libgralloc/hwmem_gralloc_pmem.c:372-387 | in every interleaving a thread that is on its way to the mapping, or in it, locks for software use |
| PmemLock.LockReturns | opensource/libgralloc/hwmem_gralloc_pmem.c:327-390 | a lock that is not refused, left alone, returns within nine accesses with its hold, writing exactly if asked to write or render; for software use with the address of the handle, mapped first unless it is marked or a framebuffer, or with the error of the mapping; otherwise with 0 and no address |
| PmemLock.UnlockReturns | opensource/libgralloc/hwmem_gralloc_pmem.c:392-420 | an unlock, left alone, returns within four accesses and gives up exactly one hold of its thread, the writer's or a reader's; the mapping stays |
| PmemLock.FailedExchangeRetries | opensource/libgralloc/hwmem_gralloc_pmem.c:336-417 | an exchange that finds another word changes nothing shared and starts over with a new load |
| PmemLock.ForeignUnlockKeepsWriter | opensource/libgralloc/hwmem_gralloc_pmem.c:397-417 | an unlock by a thread that is not the stored writer takes one off the count and leaves WRITE and the owner |
| PmemLock.ResetForgets | opensource/libgralloc/hwmem_gralloc_pmem.c:254-298 | register and unregister leave an unlocked handle unmarked, without an owner and without an address |
| PmemLock.FramebufferKeepsAddress | opensource/libgralloc/hwmem_gralloc_pmem.c:372-387 | no run without a register or unregister changes the address of a framebuffer handle |
| PmemLock.MapsAtMostOnce | opensource/libgralloc/hwmem_gralloc_pmem.c:372-387 | in every run without a register or unregister the buffer is mapped at most once, whichever threads lock it, and never once the word is marked |
| PmemLock.MappedStays | opensource/libgralloc/hwmem_gralloc_pmem.c:372-387 | no concurrent exchange loses the MAPPED bit once it is set, and the address does not change |
| PmemLock.RefusedExactlyWhen | opensource/libgralloc/hwmem_gralloc_pmem.c:340-355 | a lock is refused exactly when a writer holds the buffer, or anybody does and the request writes; a refusal changes nothing shared |
| PmemLock.ReturnsHolding | opensource/libgralloc/hwmem_gralloc_pmem.c:367-389 | every way out of a lock call after its exchange, the failed mapping included, leaves the hold in place |
| PmemBuffer.Handle.LoadForLock | opensource/libgralloc/hwmem_gralloc_pmem.c:337-361 | the load and the tests on the 32-bit word are the specified step on the three fields |
| PmemBuffer.Handle.ExchangeForLock | opensource/libgralloc/hwmem_gralloc_pmem.c:363-370 | the exchange of the lock loop is the specified step |
| PmemBuffer.Handle.MapStep | opensource/libgralloc/hwmem_gralloc_pmem.c:372-387 | the double-checked mapping under the mutex is the specified sequence of steps |
| PmemBuffer.Handle.UnlockStep | opensource/libgralloc/hwmem_gralloc_pmem.c:392-420 | the accesses of an unlock are the specified steps |
| PmemBuffer.Handle.Execute | opensource/libgralloc/hwmem_gralloc_pmem.c:327-420 | running any disciplined schedule on the handle in place ends in the state of the specified run |
| Timespecs.AddNs | opensource/libhwcomposer/vsync_monitor.c:82-90 | the addition is exact, and normalised exactly when the nanoseconds do not go below zero |
| Timespecs.PlusExact | opensource/libhwcomposer/vsync_monitor.c:82-99 | addition and conversion to nanoseconds commute |
| Timespecs.CompareAgrees | opensource/libhwcomposer/vsync_monitor.c:72-80 | on normalised readings the comparison is that of the instants in nanoseconds |
| Timespecs.CompareNeedsNormal | opensource/libhwcomposer/vsync_monitor.c:72-80 | without normalisation it is not |
| VsyncMonitor.StepInv | opensource/libhwcomposer/vsync_monitor.c:101-309 | every step of the thread, its clients and the clock keeps the invariant about what is due and what was delivered |
| VsyncMonitor.CallbackTimes | opensource/libhwcomposer/vsync_monitor.c:122-217 | after any run timestamps strictly increase, none is later than the clock at its delivery, and two in a row are one period apart unless the thread passed through the disabled wait |
| VsyncMonitor.DisableQuiesces | opensource/libhwcomposer/vsync_monitor.c:198-213 | while nobody enables, a disabled monitor delivers at most the one callback that was past its check |
| VsyncMonitor.DisableDisables | opensource/libhwcomposer/vsync_monitor.c:269-305 | disable and destroy leave the monitor disabled whatever it was doing |
| VsyncMonitor.JoinedIsSilent | opensource/libhwcomposer/vsync_monitor.c:294-309 | once the thread is joined nothing is delivered until another is started |
| VsyncMonitor.EnableDuringDestroy | opensource/libhwcomposer/vsync_monitor.c:244-309 | a run that enables inside a destroy delivers a timestamp one period in the future |
| VsyncMonitor.EarlyExactly | opensource/libhwcomposer/vsync_monitor.c:101-138 | in every run, with no rule for the clients, a timestamp is still to come when its wait ends exactly when that wait was left before it was due with stop and enable both set; only such a delivery can be early |
| VsyncMonitor.DeliversNext | opensource/libhwcomposer/vsync_monitor.c:101-217 | from every state an enabled monitor can be in, at most seven steps in which its waits time out deliver the timestamp due next, and no other |
| VsyncMonitor.FailedWaitRetries | opensource/libhwcomposer/vsync_monitor.c:113-117 | a timed wait that fails delivers nothing and loses nothing: the timestamp that was due is delivered by the next steps |
| VsyncMonitor.RestsSoon | opensource/libhwcomposer/vsync_monitor.c:175-222 | a thread told to stop has ended after at most four steps, whatever it was doing; one that is disabled has come to the disabled wait |
| VsyncMonitor.NoCallbackNoCall | opensource/libhwcomposer/vsync_monitor.c:204-216 | without a callback nothing is delivered in any run |
| VsyncMonitor.StoppedIsOff | opensource/libhwcomposer/vsync_monitor.c:152-223 | in every run, with no rule for the clients, a monitor whose thread is gone is stopped, disabled and without a callback |
| VsyncMonitor.StartRuns | opensource/libhwcomposer/vsync_monitor.c:226-260 | a stopped monitor runs once started, and is on once enabled |
| VsyncMonitor.ClientsSet | opensource/libhwcomposer/vsync_monitor.c:244-305 | without a thread only a start has an effect, with one it has none; enable keeps the callback of an enabled monitor and sets that of another; disable takes it from an enabled one; destroy sets stop |
| VsyncContext.Context.RunThread | opensource/libhwcomposer/vsync_monitor.c:101-223 | each stretch of the loop between two points where the mutex is free or the clock is read is the specified step |
| VsyncContext.Context.LoopTop | opensource/libhwcomposer/vsync_monitor.c:175-196 | the top of the loop is the specified step, clean-up included |
| VsyncContext.Context.EmitVsync | opensource/libhwcomposer/vsync_monitor.c:137-216 | taking the timestamp and deciding about the callback is the specified step |
| VsyncContext.Context.EnableVsync | opensource/libhwcomposer/vsync_monitor.c:244-267 | the critical section of enable is the specified step, and its result says whether there is a thread |
| VsyncContext.Context.DisableVsync | opensource/libhwcomposer/vsync_monitor.c:269-292 | the critical section of disable is the specified step |
| VsyncContext.Context.BeginDestroy | opensource/libhwcomposer/vsync_monitor.c:294-305 | the critical section of destroy is the specified step |
| VsyncContext.Context.EndSleep | opensource/libhwcomposer/vsync_monitor.c:109-119 | the end of a timed wait, early, late or failed, is the specified step |
| VsyncContext.Context.Execute | opensource/libhwcomposer/vsync_monitor.c:161-309 | any possible schedule in place ends in the state of the specified run |
| BufferTable.ApplyOk | opensource/libgralloc/hwmem_gralloc.c:1659-1864 | every operation, balanced or not, keeps entries to buffers with a positive count, counts to the range of an int, and recorded addresses to mappings of their own buffer |
| BufferTable.TallyStep | opensource/libgralloc/hwmem_gralloc.c:1659-1800 | each operation moves the two counts as saturating counters move, a refused free not at all |
| BufferTable.TableMatchesTally | opensource/libgralloc/hwmem_gralloc.c:1659-1864 | after any sequence the counts are those of two saturating counters, and a buffer has an entry exactly when one of them is positive |
| BufferTable.NoLeakEver | opensource/libgralloc/hwmem_gralloc.c:1114-1143 | while unmapping works, every live mapping belongs to the entry of exactly one buffer |
| BufferTable.FreeExactly | opensource/libgralloc/hwmem_gralloc.c:1764-1800 | a free is refused, changing nothing, exactly while there is a lock or a second registration; otherwise it leaves neither entry nor mapping |
| BufferTable.MmapExactly | opensource/libgralloc/hwmem_gralloc.c:1034-1111 | mapping on demand succeeds exactly for a wrapper with an address and a registered buffer that is mapped or can be, and gives address and access of that very mapping |
| BufferTable.DecrementUnmaps | opensource/libgralloc/hwmem_gralloc.c:1710-1762 | a decrement removes a mapping exactly when it is that of the entry it removes and the kernel unmaps it; mappings of other buffers stay as they are |
| BufferTable.UnmapExactly | opensource/libgralloc/hwmem_gralloc.c:1114-1143 | unmapping removes mapping and recorded address together, or neither, and keeps the table sound |
| BufferTable.WrapperUntouched | opensource/libgralloc/hwmem_gralloc.c:1659-1800 | operations on wrapper handles succeed and change nothing |
| BufferRegistry.Registry.IncBufCnt | opensource/libgralloc/hwmem_gralloc.c:1659-1708 | the increment in place, creating the entry, is the specified operation |
| BufferRegistry.Registry.DecBufCnt | opensource/libgralloc/hwmem_gralloc.c:1710-1762 | the decrement in place, removing the entry and its mapping with the last count, is the specified operation |
| BufferRegistry.Registry.DecBufRegCntIfLastUsr | opensource/libgralloc/hwmem_gralloc.c:1764-1800 | the free's decrement in place is the specified operation |
| BufferRegistry.Registry.MmapBufIfNecessary | opensource/libgralloc/hwmem_gralloc.c:1034-1110 | the mapping on demand is the specified operation, its failures included |
| BufferRegistry.Registry.MunmapBufIfNecessary | opensource/libgralloc/hwmem_gralloc.c:1114-1143 | the unmapping is the specified operation, without an entry and with its failures too |
| BufferRegistry.Registry.MapForLock | opensource/libgralloc/hwmem_gralloc.c:356-374 | the mapping part of a lock is the specified operation, with its three refusals |
| BufferRegistry.Registry.Execute | opensource/libgralloc/hwmem_gralloc.c:1034-1864 | any sequence of operations in place ends in the specified table |
| BufferLocks.StepInv | opensource/libgralloc/hwmem_gralloc.c:290-402 | every critical section of every thread keeps counts, mappings and locks in progress in step |
| BufferLocks.AddressHolds | opensource/libgralloc/hwmem_gralloc.c:330-402 | in every interleaving a lock has an address exactly when it is for software use, and that address stays mapped, under the buffer's own entry and with the access asked for, until that lock is undone |
| BufferLocks.LockMapExactly | opensource/libgralloc/hwmem_gralloc.c:356-374 | a lock goes on exactly when it is not for software use, or the caller takes an address, the buffer is registered and mapped or can be, and the mapping grants the access asked for; which of its refusals it meets otherwise |
| BufferLocks.LockCallExactly | opensource/libgralloc/hwmem_gralloc.c:330-402 | a lock made without interruption ends with a hold for this usage exactly when it can be locked, its domain can be set and the count is not full; otherwise there is no hold |
| BufferLocks.CountsExact | opensource/libgralloc/hwmem_gralloc.c:290-402 | in every interleaving the counts are the numbers of outstanding registrations and locks |
| BufferLocks.FreeExclusive | opensource/libgralloc/hwmem_gralloc.c:886-902 | a registered caller's free succeeds exactly when its registration is the only one and no lock is out, so never while another thread is inside a lock call |
| BufferLocks.OwnRegistrationNeeded | opensource/libgralloc/hwmem_gralloc.c:356-380 | a run in which a lock under somebody else's registration returns an address that is no longer mapped |
| BufferSize.AlignUp | opensource/libgralloc/hwmem_gralloc.c:1426-1455 | the result is the least multiple that is not below the value; failure means a negative value or that no such multiple fits an int |
| BufferSize.CalcDimensions | opensource/libgralloc/hwmem_gralloc.c:1457-1500 | actual dimensions are the least aligned ones that are large enough, and at most 8191 |
| BufferSize.CalcFits | opensource/libgralloc/hwmem_gralloc.c:1457-1510 | no product of the computation leaves the range of an int |
| BufferSize.CalcAccepts | opensource/libgralloc/hwmem_gralloc.c:1426-1520 | a request gets a size exactly when the format is known, neither dimension is negative, and the least aligned ones are at most 8191 |
| BufferSize.AlignmentMeans | opensource/libgralloc/hwmem_gralloc.c:1295-1375 | where pixels are independent, a width is aligned exactly if its lines are multiples of 8 bytes for textures, render targets and (but for 16-bit pixels) the composer, of 4 bytes for 24-bit pixels in 2D, of any otherwise; multi-band buffers consist of 16 by 16 blocks, YV12 widths are multiples of 16, and dimensions in which chroma is halved are even |
| BufferSize.LargestBound | opensource/libgralloc/hwmem_gralloc.c:93-96 | 8191 is the largest bound on both sides that keeps 32 bits per pixel within an int |
| BufferSize.AllocatedCoversReported | opensource/libgralloc/hwmem_gralloc.c:1457-1520 | the allocation is the size reported later, and 12 bytes per line more exactly for YV12 widths that are 16 mod 32 |
| BufferSize.AllocatedCoversYV12 | include/system/graphics.h:99-116 | the allocation of a YV12 buffer is at least its documented size |
| BufferSize.RegionAccepts | opensource/libgralloc/hwmem_gralloc.c:1384-1394 | a rectangle gets a region exactly when the format is known and it lies in the buffer |
| BufferSize.RegionIsPixels | opensource/libgralloc/hwmem_gralloc.c:1377-1424 | for formats with independent pixels the region is exactly the bytes of the rectangle's pixels |
| BufferSize.RegionIsBuffer | opensource/libgralloc/hwmem_gralloc.c:1377-1424 | for the other formats it is exactly the whole reported buffer |
| BufferSize.RegionInsideBuffer | opensource/libgralloc/hwmem_gralloc.c:1377-1424 | for any accepted rectangle it lies within the reported size and its numbers within an int |
| BlitRects.OrientedPointwise | opensource/libcopybit/copybit.c:332-349 | for every code the turned rectangle is the set of pixels looked for, of the same area |
| BlitRects.SourcePixelBijective | opensource/libcopybit/copybit.c:332-349 | every code is a bijection on the pixels of the plane |
| BlitRects.DisjointClips | opensource/libcopybit/copybit.c:332-349 | disjoint clips take disjoint sources before rescaling |
| BlitRects.DocumentedExactly | opensource/b2r2lib/include/blt_api.h:354-387 | the code finds the documented pixel for every code except exactly 5 and 6 |
| BlitRects.NoRescaleExactly | opensource/libcopybit/copybit.c:351-373 | the test for no rescaling succeeds exactly when the two sizes are equal |
| BlitRects.ProductsFit | opensource/libcopybit/copybit.c:351-373 | no product or sum of the rescaling leaves 31 bits |
| BlitRects.RescaleNoWrap | opensource/libcopybit/copybit.c:351-373 | as long as the products fit 32 bits, negative lengths included, the operations of the code are the exact ones |
| BlitRects.PieceNoWrap | opensource/libcopybit/copybit.c:351-373 | for every piece of the destination they do fit |
| BlitRects.ScaledInside | opensource/libcopybit/copybit.c:360-373 | a segment of the destination rescales into the source although start and length are rounded differently |
| BlitRects.ScaledError | opensource/libcopybit/copybit.c:360-373 | the start lies in (exact - 3/2, exact] and the length in (exact - 1, exact + 1/2] |
| BlitRects.RectsInside | opensource/libcopybit/copybit.c:301-380 | the destination rectangle is the intersection of destination and clip, and the source rectangle lies in the source, turned or not |
| BlitRects.SetRects | opensource/libcopybit/copybit.c:279-385 | the step-by-step 32-bit computation yields, for any clip, the stated rectangles with wrapping products; for a clip that meets the destination these are the exact ones, inside source, destination and clip; and if the sizes agree after the turn, the source rectangle has exactly the pixels looked for at some pixel of the destination rectangle |
| BlitRects.SourceIsLookedFor | opensource/libcopybit/copybit.c:301-380 | without rescaling a pixel is in the source rectangle exactly when it is the source pixel, for that transform code, of a pixel in the destination rectangle |
| BlitRects.SourceIsAround | opensource/libcopybit/copybit.c:301-380 | with rescaling the source rectangle starts at most 3/2 before the exactly scaled corner of those pixels and never after it, and its sides are the scaled sides of the destination rectangle less at most 1 or plus at most 1/2, turned or not |
| BlitRects.CornerExists | opensource/libcopybit/copybit.c:332-349 | there is such a corner for every clip that leaves something of the destination |
| BlitRects.Orient | opensource/libcopybit/copybit.c:332-349 | the flips and the turn in place are the specified transformation |
| BlitRects.RescaleAxis | opensource/libcopybit/copybit.c:351-373 | the rescaling in place, through unsigned products stored as signed numbers, is the specified one for positions and lengths of either sign |
| BlitRects.AxisExactly | opensource/libcopybit/copybit.c:550-563 | the divisions of the code mean that an axis faults exactly when one size is zero and the other positive, and is refused exactly when both are positive and one is nine times the other; negative sizes pass |
| BlitRects.CheckStretchLimits | opensource/libcopybit/copybit.c:534-582 | for any rectangles the check ends as the meaning of the two axes says, in a division by zero too; the vertical axis counts only if the horizontal one passes |
| BlitRects.HalExactly | opensource/libcopybit/copybit.c:456-470 | a HAL transform shows the documented pixel except exactly when one axis is flipped and the image turned |
| BlitRects.Request.SetRotation | opensource/libcopybit/copybit.c:402-423 | each legal angle shows the pixel of that clockwise turn, any other is refused and leaves no turn |
| BlitRects.Request.SetTransform | opensource/libcopybit/copybit.c:456-470 | the code stored is that of the HAL transform |
| BlitStretch.Intersect | opensource/libcopybit/copybit.c:115-123 | the result has exactly the common pixels |
| BlitStretch.CheckExactly | opensource/libcopybit/copybit.c:654-662 | what the check says of any clip, from the lengths of its pieces and the factors alone |
| BlitStretch.FaultsExactly | opensource/libcopybit/copybit.c:550-578 | the check divides by zero exactly when the axis it looks at first has a piece whose source rounds to nothing, or that axis passes and the other has one |
| BlitStretch.SubmittedExactly | opensource/libcopybit/copybit.c:654-678 | a request is made for a clip, meeting the destination or not, exactly when each of its two pieces is not empty, passes, and keeps a source that does not round to nothing |
| BlitStretch.VanishesMeans | opensource/libcopybit/copybit.c:360-373 | a negative length rounds to nothing exactly when its product is at most a half, as long as that fits 32 bits |
| BlitStretch.RequestsPaint | opensource/libcopybit/copybit.c:648-683 | the requests for clips that pass paint exactly the destination pixels inside the buffer and some clip, whether or not every clip meets the destination |
| BlitStretch.RequestFine | opensource/libcopybit/copybit.c:648-683 | a request for a clip that meets the destination reads inside the source, writes inside destination and buffer, and is within the limits; any other has a negative side |
| BlitStretch.ThinFaults | opensource/libcopybit/copybit.c:557-558 | one column of a blit from one pixel to three divides by zero |
| BlitStretch.Stretch | opensource/libcopybit/copybit.c:648-683 | the loop goes through exactly when every clip passes, with the requests for all; otherwise it ends at the first that does not, refused or dividing by zero, with the requests for those before |
| BlitStretch.StopsOnce | opensource/libcopybit/copybit.c:648-683 | the clip at which the loop ends is determined by the clips alone: at most one is the first that does not pass |
| BlitStretch.MissNotIgnored | opensource/libcopybit/copybit.c:657-671 | a clip beside the destination is submitted with a negative width |
| SlotMask.TakeTakes | opensource/libgralloc/hwmem_gralloc_framebuffer.c:659-661 | setting a bit takes that slot and no other |
| SlotMask.ReleaseReleases | opensource/libgralloc/hwmem_gralloc_pmem.c:431 | clearing a bit releases that slot and no other |
| SlotMask.FullExactly | opensource/libgralloc/hwmem_gralloc_framebuffer.c:646-649 | the comparison with (1 << n) - 1 succeeds exactly when all n slots are taken |
| SlotMask.SearchFirstFree | opensource/libgralloc/hwmem_gralloc_framebuffer.c:656-663 | if any slot is free the search ends on the first free one after the last one given, going around |
| Framebuffer.PhoneIsSound | opensource/libgralloc/hwmem_gralloc_framebuffer.c:502-519 | a 480 x 800 screen with room for two meets what is asked of the driver and can be turned |
| Framebuffer.SlotsAreUsers | opensource/libgralloc/hwmem_gralloc_framebuffer.c:635-667 | after any run of allocations, frees, turns and posts the set bits are the slots in use; an allocation is not handled exactly with a single slot, fails exactly when all are in use, and otherwise hands out the first free one, with the handle of that slot and the width of the screen as its stride |
| Framebuffer.FreesOwnSlot | opensource/libgralloc/hwmem_gralloc_pmem.c:425-431 | however the screen was turned since, freeing a slot clears its own bit and changes nothing else |
| Framebuffer.PostsOwnSlot | opensource/libgralloc/hwmem_gralloc_framebuffer.c:211-224 | posting slot k shows line k * yres, and the address posted is the start of the memory plus the offset in the handle |
| Framebuffer.FreesInRun | opensource/libgralloc/hwmem_gralloc_pmem.c:425-431 | in a run, freeing a slot gives it back and leaves the slots of all other users set |
| Framebuffer.PostsInRun | opensource/libgralloc/hwmem_gralloc_framebuffer.c:211-224 | in a run, posting a slot in use moves the offset to its first line and changes nothing else |
| Framebuffer.SlotsDisjoint | opensource/libgralloc/hwmem_gralloc_framebuffer.c:502-519 | slots in use are disjoint byte ranges within the mapping, which is the memory of the screen rounded up to the next page |
| Framebuffer.GeometryKept | opensource/libgralloc/hwmem_gralloc_framebuffer.c:323-370 | turns keep pixels, number of screens and bytes of a screen; the screen is as reported or on its side, as its rotation says |
| Framebuffer.RotatesExactly | opensource/libgralloc/hwmem_gralloc_framebuffer.c:323-370 | a turn is refused exactly for an angle that is no multiple of 90 and for lines that are no multiple of 8 bytes in either position, changing nothing; otherwise the screen has that angle, is as wide virtually as it is, and nothing but the geometry changes |
| Framebuffer.MapsOnce | opensource/libgralloc/hwmem_gralloc_framebuffer.c:611-644 | the framebuffer is mapped on the first allocation, where the driver puts it, and never again |
| Framebuffer.Run | opensource/libgralloc/hwmem_gralloc_framebuffer.c:611-672 | every run keeps the invariant that ties mask, handles and geometry together |
| Framebuffer.TurnKeepsSlotSize | opensource/libgralloc/hwmem_gralloc_framebuffer.c:347-352 | a turn keeps the size of a slot exactly when lines are not padded |
| Framebuffer.OwnIndex | opensource/libgralloc/hwmem_gralloc_pmem.c:429-431 | the index computed from the handle of slot k is k, for the screen in either position |
| Framebuffer.PaddedFreesExactly | opensource/libgralloc/hwmem_gralloc_pmem.c:429-431 | with padded lines slot k is freed as its own after a turn exactly when k slots of the old size end before k + 1 of the new |
| Framebuffer.PaddedMisfrees | opensource/libgralloc/hwmem_gralloc_pmem.c:429-431 | a padded screen on which a slot given out before a turn is freed as another |
| Framebuffer.FailedMapForgotten | opensource/libgralloc/hwmem_gralloc_framebuffer.c:502-519 | an mmap that fails is reported once, and the next allocation hands out a slot at address 0 |
| FramebufferModule.Module.AllocFramebuffer | opensource/libgralloc/hwmem_gralloc_framebuffer.c:611-672 | the allocation in place, mapping the framebuffer on first use, is the specified one with all its refusals |
| FramebufferModule.Module.MapFrameBufferLocked | opensource/libgralloc/hwmem_gralloc_framebuffer.c:374-521 | the framebuffer is mapped once, and a failing mmap leaves the structure in place |
| FramebufferModule.Module.AllocSlot | opensource/libgralloc/hwmem_gralloc_framebuffer.c:635-671 | the allocation once the framebuffer is mapped is the specified one |
| FramebufferModule.Module.FindSlot | opensource/libgralloc/hwmem_gralloc_framebuffer.c:656-663 | the search loop ends where the specified search does, with that bit set |
| FramebufferModule.Module.FreeFramebuffer | opensource/libgralloc/hwmem_gralloc_pmem.c:425-431 | the free in place is the specified one |
| FramebufferModule.Module.FbRotate | opensource/libgralloc/hwmem_gralloc_framebuffer.c:323-370 | the rotation in place is the specified one, its refusals included |
| FramebufferModule.Module.FbPost | opensource/libgralloc/hwmem_gralloc_framebuffer.c:211-224 | the offset posted and the address sent to the display are the specified ones |
| FramebufferModule.Module.Execute | opensource/libgralloc/hwmem_gralloc_framebuffer.c:323-672 | any run of operations in place ends in the state of the specified run, with the same handles in use |
| BlitHandles.Handles.GetHandle | opensource/b2r2lib/src/blt_b2r2.c:88-119 | data goes under the least handle that leads nowhere, every other handle leads where it led, and the table grows only when missing or full |
| BlitHandles.Handles.GrowDatas | opensource/b2r2lib/src/blt_b2r2.c:61-86 | growing appends empty entries and keeps the others |
| BlitHandles.Handles.GetData | opensource/b2r2lib/src/blt_b2r2.c:121-126 | any number may be looked up; one outside the table leads nowhere |
| BlitHandles.Handles.FreeHandle | opensource/b2r2lib/src/blt_b2r2.c:128-132 | the handle leads nowhere afterwards, every other where it led |
| BlitHandles.TableIsLive | opensource/b2r2lib/src/blt_b2r2.c:61-132 | over any history a handle leads to the data it was last opened with until it is closed, growth being invisible |
| BlitHandles.OpensUnused | opensource/b2r2lib/src/blt_b2r2.c:88-119 | over any history the handle given out is not in use and every smaller one is |
| BlitReports.StepInv | opensource/b2r2lib/src/blt_b2r2.c:134-287 | every step of requesters, closer and callback thread keeps conservation, pending events and the closing protocol |
| BlitReports.NothingLost | opensource/b2r2lib/src/blt_b2r2.c:134-180 | after any interleaving accepted requests are those delivered, counted in the thread, counted in the handle, or not announced yet; none is delivered twice |
| BlitReports.SleepsOnlyWhenDone | opensource/b2r2lib/src/blt_b2r2.c:143-151 | the thread sleeps unsignalled only when every announced report is delivered and the handle is not being closed |
| BlitReports.ClosedDelivered | opensource/b2r2lib/src/blt_b2r2.c:226-251 | when close has joined the thread and no read failed, every request's callback has run exactly once |
| BlitReports.ReadIsDelivered | opensource/b2r2lib/src/blt_b2r2.c:153-166 | after any run that leaves the thread reading with reports due, reading a pending one appends it to what was delivered and counts it off |
| BlitReports.EverythingGetsDelivered | opensource/b2r2lib/src/blt_b2r2.c:134-180 | from any reached state without a failed read the thread can go on so that all announced reports are delivered; if the handle is being closed, so that it exits and every request's callback has run once |
| BlitReports.FailsAndWaits | opensource/b2r2lib/src/blt_b2r2.c:143-160 | a failed read ends the thread; with no event it waits |
| BlitReports.CloseDuringRequest | opensource/b2r2lib/src/blt_b2r2.c:253-287 | a run in which closing during a request loses its callback |
| BlitHandle.Data.Ioctl | opensource/b2r2lib/src/blt_b2r2.c:271-273 | an accepted request with a callback becomes pending under its requester |
| BlitHandle.Data.AnnounceReport | opensource/b2r2lib/src/blt_b2r2.c:275-283 | the critical section of a request is the specified step |
| BlitHandle.Data.Terminate | opensource/b2r2lib/src/blt_b2r2.c:233-239 | the critical section of close is the specified step |
| BlitHandle.Data.TakeReports | opensource/b2r2lib/src/blt_b2r2.c:147-151 | the thread's critical section takes the event and the whole count, and clears both |
| BlitHandle.Data.EnterSection | opensource/b2r2lib/src/blt_b2r2.c:144-151 | with no event the thread waits, otherwise it takes |
| BlitHandle.Data.LeaveWait | opensource/b2r2lib/src/blt_b2r2.c:146-151 | a wait that ends for any reason is followed by taking what there is |
| BlitHandle.Data.FailRead | opensource/b2r2lib/src/blt_b2r2.c:157-160 | a failed read ends the thread with its count unchanged |
| BlitHandle.Data.RunCallback | opensource/b2r2lib/src/blt_b2r2.c:153-166 | a report read runs one callback and is counted off |
| BlitHandle.Data.ReadOne | opensource/b2r2lib/src/blt_b2r2.c:156-165 | a read returns a report whose callback is run, nothing, or an error that ends the thread |
| BlitHandle.Data.ReadReports | opensource/b2r2lib/src/blt_b2r2.c:153-166 | the reading loop goes on exactly while reports are due and no read fails, and each read is the specified step |
| BlitHandle.Data.Execute | opensource/b2r2lib/src/blt_b2r2.c:134-287 | any possible schedule in place ends in the state of the specified run |
| BlitHandle.Data.FinishRound | opensource/b2r2lib/src/blt_b2r2.c:169-171 | the thread exits after a terminating event and goes round otherwise |
| LayerCache.ScanExactly | opensource/libhwcomposer/hwcomposer.c:820-868 | the comparison is decided by the first layer that does not pass: one without a handle, or skipped, empties the cache, any other fills it anew |
| LayerCache.Run | opensource/libhwcomposer/hwcomposer.c:745-871 | every run keeps the invariant about what the cache holds and what was shown |
| LayerCache.HitExactly | opensource/libhwcomposer/hwcomposer.c:795-871 | a hit means exactly that no rotation is pending and 2 to 16 layers, all with handles and none skipped, are overlays or carry the handles of the list the cache was filled from, which had an overlay |
| LayerCache.ChooseExactly | opensource/libhwcomposer/hwcomposer.c:934-1044 | prepare's choice of types, layer by layer, from the list before the call |
| LayerCache.MissExactly | opensource/libhwcomposer/hwcomposer.c:795-871 | what a prepare that does not hit leaves: an empty cache for a single layer or after a turn, the same cache for more than 16 layers, an emptied one where the first layer that does not pass has no handle or is skipped, and otherwise the handles of this list |
| LayerCache.TurnForgets | opensource/libhwcomposer/hwcomposer.c:1046-1066 | the frame after a turn of the screen never hits; it leaves the cache empty, no grab, and no turn pending |
| LayerCache.StartsGpuExactly | opensource/libhwcomposer/hwcomposer.c:1206-1288 | outside a grab the GPU is started exactly when some layer is for it or has nothing visible |
| LayerCache.SetExactly | opensource/libhwcomposer/hwcomposer.c:1183-1291 | what a set leaves composed, when it counts as composed past the cache, and when it reads past the saved types |
| LayerCache.HitShowsExactly | opensource/libhwcomposer/hwcomposer.c:1049-1066 | in a hit, a layer to be composed is in what the GPU composed last exactly when no frame was composed past the cache since it was filled and the layer was composed there, or, if that frame went to the display entirely, was in the picture before |
| LayerCache.HitShowsAll | opensource/libhwcomposer/hwcomposer.c:1277-1288 | so a hit on a cache filled from a composed frame, with nothing composed past it, shows all such layers exactly when each was a Framebuffer layer then |
| LayerCache.RestoresChosen | opensource/libhwcomposer/hwcomposer.c:874-921 | in a frame whose prepare hit, set restores exactly the types prepare had chosen |
| LayerCache.GrabbedExactly | opensource/libhwcomposer/hwcomposer.c:1049-1066 | when a frame counts as grabbed, hit or not; up to 16 layers there is a saved type for each |
| LayerCache.RestoreOverrunsExactly | opensource/libhwcomposer/hwcomposer.c:1186-1189 | set reads past the saved types exactly when a list of more than 16 layers follows a grab with no rotation pending |
| LayerCache.FaultsExactly | opensource/libhwcomposer/hwcomposer.c:806-811 | a run contains such a read exactly when some frame of it is of that kind |
| LayerCache.HitAfterCrowd | opensource/libhwcomposer/hwcomposer.c:806-811 | a run that hits right after a frame with too many layers was composed, with a layer that is not in the picture |
| LayerCache.HitNeverComposed | opensource/libhwcomposer/hwcomposer.c:1279 | a run that hits although the frame the cache was filled from went to the display entirely, with a layer that was never composed |
| LayerCache.OldTypesRestored | opensource/libhwcomposer/hwcomposer.c:855-864 | a run in which a miss gets the types of an earlier frame |
| LayerCache.RestoreOverruns | opensource/libhwcomposer/hwcomposer.c:912-920 | a run in which set reads seventeen of two saved types |
| LayerCacheContext.Context.InitLayerCache | opensource/libhwcomposer/hwcomposer.c:745-763 | the array is made or cleared and the count and the grab are reset |
| LayerCacheContext.Context.PopulateCachedLayer | opensource/libhwcomposer/hwcomposer.c:765-793 | filling the array in place is the specified operation, an overlay or not |
| LayerCacheContext.Context.CheckCachedLayers | opensource/libhwcomposer/hwcomposer.c:795-871 | the comparison in place is the specified one, never past the 16 entries |
| LayerCacheContext.Context.GrabAllLayers | opensource/libhwcomposer/hwcomposer.c:874-906 | the types are saved and every layer made an overlay |
| LayerCacheContext.Context.UngrabFbLayers | opensource/libhwcomposer/hwcomposer.c:908-921 | the saved types are put back and nothing else changes, unless there are fewer of them than layers, which is reported |
| LayerCacheContext.Context.ChooseTypes | opensource/libhwcomposer/hwcomposer.c:934-1044 | the loops over the layers make the bottom layer an overlay exactly if it is a visible video buffer with a handle that is not skipped, and for the GPU otherwise; the next for the GPU exactly if the bottom one is shown; and change nothing else, nor anything without a changed geometry or a skipped layer |
| LayerCacheContext.Context.PrepareFrame | opensource/libhwcomposer/hwcomposer.c:923-1066 | prepare in place is the specified operation on context and list |
| LayerCacheContext.Context.CountDisplayLayers | opensource/libhwcomposer/hwcomposer.c:1206-1229 | the loop counts the visible layers before the first Framebuffer one |
| LayerCacheContext.Context.SetFrame | opensource/libhwcomposer/hwcomposer.c:1183-1291 | set puts types back exactly in grabbed frames, starts the GPU exactly in other frames of which not all layers go to the display, and reports a read past the saved types |
| LayerCacheContext.Context.Execute | opensource/libhwcomposer/hwcomposer.c:923-1303 | any run of frames in place, up to a fault, ends in the state of the specified run |

## Left out

- Memory model: atomics and plain accesses of the pmem lock word and owner field are steps of one sequentially consistent
  order.
- Device I/O: open, ioctl, mmap, sysfs, sockets, EGL and GLES calls appear only as success or failure and the addresses
  or ids they return; `KernelOk` says that mmap gives out no address twice.
- Slots of the framebuffer are allocated and freed one call at a time; the free path does not take the module lock.
- Wrapper handles of hwmem buffers are modelled as far as their early returns; `BufferLocks` has none.
- Running out of memory, the hash map under the buffer table, and failures of pthread calls other than timed waits.
- The usage flags are booleans: the header with their values (hardware/gralloc.h) is not part of this model.
- The vsync thread's joining client reads the thread id without the mutex; here joining is waiting for the thread to be
  gone. Only the variant that generates vsyncs itself is modelled, at its default rate of 60 Hz.
- BlitReports.ClosedDelivered: every report is taken to carry its callback; and it says nothing when a read fails, since the
  thread then exits with callbacks outstanding, which `NothingLost` still counts.
- LayerCache.RestoresChosen: covers frames whose prepare hit; `GrabbedExactly` says when another frame is treated as
  grabbed. After a read past the saved types nothing is said of the run any more.
- BlitRects.SetRects: speaks of destinations that are not empty, sources below 2^15 and coordinates within 2^29; what
  becomes of others is whatever C makes of the overflow. `BlitStretch.Stretch` has the same scope, and a blitter that
  accepts every request.
- FramebufferModule.Module.MapFrameBufferLocked: the driver's failures are one answer; errno is taken to be set.
- The layer cache compares handles, so nothing is said about positions, crops or transforms of layers; HDMI
  notifications, hints, overlay bypass and the composer's worker thread are not modelled.
- Physical dimensions and dots per inch of the framebuffer, format conversions, colour fills, and parameters of copybit
  other than rotation and transform.
- The reserved fields, partial updates and the memcpy path of the framebuffer device, and vsync timing of its posts.
- Everything else in the device tree: audio, sensors, lights, power, RIL, recovery, logging and build files.
