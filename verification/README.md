# VMAccel: surface consistency, resource allocation and wire formats

A Dafny model of the parts of VMAccel that keep state consistent, with proofs of what they promise.

- **Surface consistency.** A surface has a backing buffer at the client, a copy at the backend, a generation counter on
  both sides and a bit that says whether the copy is up to date. `backend.dfy` models the OpenCL backend's surface table,
  `consistency.dfy` the client's calls, `consistency_runs.dfy` all runs of them, `consistency_effects.dfy` the bytes that
  uploads and kernels deliver, `operation.dfy` the life of a compute operation, and `client.dfy` the client's code, proved against these. The main result is that client and backend
  together are one plain memory.
- **Resource allocator.** `allocator.dfy` is the allocator template as a state machine, `allocator_class.dfy` its code.
  `pool.dfy` models the `std::multiset` of free elements: its comparators are no strict weak orders across resources, so
  `lower_bound` and `upper_bound` return some boundary of the comparator test, or an end, and every result holds for
  whichever they return. The three element types are address ranges (`alloc_range.dfy`, `range_tiling.dfy`,
  `best_fit.dfy`, `coalescing.dfy`), integers (`amounts_int.dfy`) and nine-dimensional descriptors (`amounts_desc.dfy`,
  `desc_inputs.dfy`); the last two share `scalars.dfy` and `scalar_runs.dfy`. `drops.dfy`, `range_drops.dfy` and
  `amount_drops.dfy` are about what a deferred build may drop, `ledger.dfy` about the capacity and load books;
  `closure.dfy`, `pieces.dfy` and `totals.dfy` hold what all of these share.
- **Identifier database.** `words.dfy`, `identifier_db.dfy` and `identifier_runs.dfy`: the word-packed bitmap as a set,
  with 32-bit arithmetic where it shows.
- **Wire formats.** `xdr.dfy`, `xdr_layout.dfy` and `xdr_stream.dfy` (RFC 4506), and `spirv.dfy` (string packing and the module cloner).

Some properties that one would expect are false of the code. Each of these has a concrete input and the exact condition
under which the property holds:

- A generation that wraps makes the backend refuse everything that follows (`Consistency.UploadRefinesIff`,
  `Consistency.WrappedPushIsRefused`).
- A download over an unpushed upload loses it, and a short upload after a kernel reverts the rest
  (`Consistency.DownloadRefinesIff`, `ConsistencyRuns.UnpushedDownloadLoses`, `ConsistencyRuns.ShortUploadReverts`).
- The client's default of 48 identifiers exceeds the backend's 32 slots; a surface is safe if and only if its identifier
  has a slot (`ConsistencyRuns.CreateKeepsIff`, `ConsistencyRuns.DefaultsOverflow`).
- `FindFreed` drops queued elements of other resources (`RangeDrops.QueuedRangeIsDropped`,
  `IntAmounts.QueuedAmountIsDropped`). When it may, is a test on the pool and the queue before the call
  (`AmountDrops.MayDropIff`, `RangeDrops.MayDropIff`).
- `FreeObj` merges ranges of resources that touch (`RangeTiling.TouchingResourcesMerge`,
  `RangeTiling.ForeignMergeIff`).
- A freed range is never joined to the free range before it: a resource freed in order stays in pieces
  (`Coalescing.SingleMergeIff`, `Coalescing.RejoinedIff`).
- `IsEmpty` takes a capacity for nothing when its fields add up to a multiple of 2^32
  (`DescAmounts.EmptyButSomething`, `DescAmounts.WrappedRemainderIsLost`); `desc_inputs.dfy` has inputs that rule it out.
- The integer instance's `+=` and `-=` take their left side by value, so its books never move
  (`IntAmounts.IntBooksStay`, `IntAmounts.IntBooksRightIff`).
- Identifier ranges of 32 or more that do not start a word touch the whole first word (`IdentifierDb.TouchedExactly`,
  `IdentifierDb.ReleaseRangeExactly`).
- `AcquireId` does not count (`IdentifierRuns.AcquiredIsNotCounted`, `IdentifierRuns.CountExactIff`), and `size + 31` can wrap
  (`IdentifierRuns.FirstAllocCorruptedIff`).
- A map that fails on the device is counted (`Backend.FailedMapIsCounted`, `Backend.FailedMapTracelessIff`).
- The cleanup loop of an empty dispatch would start outside the argument list (`Backend.CleanupStartsInside`).

## Model

| member | source | states |
|---|---|---|
| `ConsistencyRuns.DisciplinedRun` | common/inc/vmaccel_compute.hpp:219-502 | from an empty accelerator, every run of creations, uploads, pushes, dispatches, downloads and destructions in which uploads fill their surface, number fewer than 2^32 and are pushed before the surface is downloaded, and surfaces get identifiers with a slot, is at every point one plain memory, and no backend call is refused |
| `ConsistencyRuns.RunRefinesIff` | common/inc/vmaccel_compute.hpp:219-502 | for every run: client and backend stay in step and stand for the plain memory up to event n if and only if each event up to n is careful |
| `ConsistencyRuns.StepRefinesIff` | common/inc/vmaccel_compute.hpp:1273-1314 | for every one of the eight kinds of event: the invariant holds after it and the memory is the one it should leave, if and only if the event is careful (a slot for a new surface, no wrapped generation after a push, no disagreeing tail of a short upload, no download over an unpushed upload) |
| `ConsistencyRuns.RunIsTakenIff` | common/inc/vmaccel_compute.hpp:247-338 | in a careful run every call is answered SUCCESS, and every dispatch is accepted on its first attempt, unless the device refuses the kernel or the event downloads a surface that was never made resident |
| `ConsistencyRuns.StepIsTakenIff` | common/inc/vmaccel_compute.hpp:1273-1314 | while client and backend are in step, every allocation, push and mapping of an event is answered SUCCESS, except if and only if it downloads a surface without a copy; a dispatch fails only if the device refuses the kernel |
| `ConsistencyRuns.LaunchKeeps` | common/inc/vmaccel_compute.hpp:1715-1800 | a dispatch pushes its arguments and applies the kernel to the one memory; the attempt is accepted exactly when the device takes the kernel |
| `ConsistencyRuns.BitsFollowHistory` | common/inc/vmaccel.hpp:675-690 | in a careful run the consistent bit says exactly whether the surface was pushed since its last upload or creation, and the generation is at most the number of uploads |
| `ConsistencyRuns.DisciplinedIsCareful` | common/inc/vmaccel.hpp:675-690 | a run that an application keeps in order by the history alone is careful at every event |
| `ConsistencyRuns.SettledReads` | common/inc/vmaccel.hpp:702-722 | from every surface that no kernel was given since its last creation, upload or download, the application reads the first bytes of what the plain memory holds, as many as surface and buffer have |
| `ConsistencyRuns.DispatchThenQuiesce` | common/inc/vmaccel_compute.hpp:1807-1847 | after a dispatch and the downloads of its arguments, each argument's backing is what the kernel computed from the memory before, and the memory stays |
| `ConsistencyRuns.CreateKeepsIff` | common/inc/vmaccel.hpp:598-622 | a new surface, on an identifier that may have been used before, is in step with the backend if and only if the table has a slot for it, and then adds one cell to the memory |
| `ConsistencyRuns.CreateFitsIff` | common/inc/vmaccel.hpp:461-466 | the least free identifier has a slot if and only if some identifier within the table is free |
| `ConsistencyRuns.DestroyKeeps` | common/inc/vmaccel.hpp:627-634 | destroying a surface clears its slot, releases its identifier and removes its cell from the memory, so that the identifier can be used again |
| `ConsistencyRuns.UnpushedDownloadLoses` | common/inc/vmaccel_compute.hpp:407-502 | a concrete download before a push that loses the upload |
| `ConsistencyRuns.ShortUploadReverts` | common/inc/vmaccel.hpp:675-690 | a concrete short upload after a kernel that brings back overwritten bytes |
| `ConsistencyRuns.DefaultsFill` | common/inc/vmaccel_defs.h:61-66 | from the start, with the default 48 identifiers over 32 slots, other objects can take the first 32 identifiers one after the other |
| `ConsistencyRuns.DefaultsOverflow` | common/inc/vmaccel_defs.h:61-66 | the surface that is then created has an identifier without a slot, and is out of step |
| `ConsistencyRuns.StartInv` | common/inc/vmaccel.hpp:394-399 | the accelerator as constructed is in step and stands for the empty memory |
| `ConsistencyEffects.LaunchDelivers` | backends/vmwopencl/src/vmwopencl_ops.c:1679-1685 | after an accepted dispatch and the downloads of its arguments, each writable argument that the kernel puts out at its size is worth, and has in its backing, what the kernel computed from the contents of its arguments in the memory before; every other surface is worth what it was |
| `ConsistencyEffects.FinishDelivers` | common/inc/vmaccel_compute.hpp:1854-1869 | the same for push, attempt and downloads as finish makes them, of which none is refused |
| `ConsistencyEffects.CopyRun` | common/inc/vmaccel_compute.hpp:1673-1847 | a concrete run, local or remote: two creations, an upload to the first surface, a kernel that copies it to the second, and a download; the application then reads its own byte from the second surface |
| `ConsistencyEffects.UploadReadsBack` | common/inc/vmaccel.hpp:675-722 | later in any careful run in which nothing else wrote the surface and no kernel had it, the application reads an upload back: the uploaded bytes as far as the surface goes and the former ones beyond, and a full upload whole |
| `ConsistencyEffects.BackingStays` | common/inc/vmaccel_compute.hpp:407-502 | in such a run neither pushes nor downloads nor the calls for other surfaces change the backing |
| `Consistency.UploadRefinesIff` | common/inc/vmaccel.hpp:675-690 | an upload keeps client and backend in step if and only if the generation does not wrap or nothing was pushed, and writes the memory if and only if the bytes it does not reach agree |
| `Consistency.UploadClearsAllBits` | common/inc/vmaccel.hpp:684-686 | releasing the range from 0 clears the bits of all contexts |
| `Consistency.UploadedBytes` | common/inc/vmaccel.hpp:675-690 | byte i of the backing after an upload is byte i of the data if there is one and the old byte otherwise; size, access and residency stay, the bit is cleared, the generation is the next modulo 2^32, and nothing else changes |
| `Consistency.DownloadedBytes` | common/inc/vmaccel.hpp:702-722 | the application gets the first bytes of the backing, as many as backing and buffer have |
| `Consistency.AttemptRefusalIff` | backends/vmwopencl/src/vmwopencl_ops.c:1603-1619 | an attempt is answered RESOURCE_UNAVAILABLE if and only if the first argument whose copy is of another generation names a later one, and SEMANTIC_ERROR if and only if it names an earlier one |
| `Consistency.ResidentSlot` | common/inc/vmaccel_compute.hpp:166-212 | the slot of a surface that becomes resident has the surface's access, the device's shared memory and content, generation zero and no mapping |
| `Consistency.WrappedPushIsRefused` | common/inc/vmaccel_compute.hpp:247-338 | after a wrap every push is answered SEMANTIC_ERROR and leaves the old content, and on a remote backend the surface is marked consistent all the same |
| `Consistency.AllocKeeps` | common/inc/vmaccel_compute.hpp:166-212 | making a surface resident leaves the invariant and the memory |
| `Consistency.PushAccepted` | common/inc/vmaccel_compute.hpp:247-396 | a push is never refused and leaves the copy equal to the backing, through a mapping or as an image upload |
| `Consistency.UploadSurfaceKeeps` | common/inc/vmaccel_compute.hpp:219-400 | a lazy push leaves the memory unchanged and the surface consistent |
| `Consistency.PushKeeps` | common/inc/vmaccel_compute.hpp:1273-1314 | preparing one argument changes two bits of one surface and its slot, and not the memory |
| `Consistency.PushAllKeeps` | common/inc/vmaccel_compute.hpp:1715-1723 | preparing all arguments, repeated ones included, makes exactly these surfaces resident and consistent and leaves the memory |
| `Consistency.AttemptAccepted` | backends/vmwopencl/src/vmwopencl_ops.c:1603-1619 | a dispatch of consistent arguments passes every generation check |
| `Consistency.AttemptRefines` | backends/vmwopencl/src/vmwopencl_ops.c:1679-1685 | a dispatch of consistent arguments is the kernel run on the one memory, and keeps the invariant |
| `Consistency.KernelRefines` | backends/vmwopencl/src/vmwopencl_ops.c:1679-1685 | running a kernel on the copies of consistent surfaces is running it on the memory |
| `Consistency.DownloadRefinesIff` | common/inc/vmaccel_compute.hpp:407-502 | a download, of a resident surface or not, keeps the invariant; it leaves the memory unchanged if and only if the surface is read-only, or not resident, or consistent, or backing and copy are equal |
| `Consistency.DownloadedBacking` | common/inc/vmaccel_compute.hpp:407-502 | after the download of a consistent surface its backing is what the memory holds |
| `Consistency.QuiescedBacking` | common/inc/vmaccel_compute.hpp:1807-1847 | after the downloads of consistent surfaces each backing is what the memory holds, and the memory is unchanged |
| `Client.Accelerator.constructor` | common/inc/vmaccel.hpp:394-399 | the start of the protocol, with the invariant |
| `Client.Accelerator.CreateSurface` | common/inc/vmaccel.hpp:598-622 | a creation step of the protocol on the least free identifier, in step if and only if it has a slot; without one, nothing changes |
| `Client.Accelerator.Upload` | common/inc/vmaccel.hpp:675-690 | an upload step for the whole region, whose bytes are the data's as far as it goes and the old ones beyond, and FAIL without effect for any other region |
| `Client.Accelerator.Download` | common/inc/vmaccel.hpp:702-722 | the first bytes of the backing, as many as backing and buffer have, for the whole region, and FAIL for any other |
| `Client.Accelerator.AllocResident` | common/inc/vmaccel_compute.hpp:166-212 | the allocation step of the protocol |
| `Client.Accelerator.UploadResident` | common/inc/vmaccel_compute.hpp:219-400 | the push step of the protocol, by map, copy and unmap on a local backend and by image upload on a remote one |
| `Client.Accelerator.DownloadResident` | common/inc/vmaccel_compute.hpp:407-502 | the download step of the protocol |
| `Client.Accelerator.DestroyResident` | common/inc/vmaccel_compute.hpp:690-727 | the slot of a resident surface is cleared, and its residency bit |
| `Client.Accelerator.Destroy` | common/inc/vmaccel.hpp:627-634 | the destruction step of the protocol, identifier included |
| `Client.DestroyableFacts` | frontends/vmaccel/src/vmaccel.cpp:44-51 | under the invariant every surface can be destroyed: its identifier is active, and a resident one has an active slot, as the backend asserts |
| `Client.Operation.constructor` | common/inc/vmaccel_compute.hpp:1602-1611 | an operation starts out neither prepared nor dispatched nor quiesced |
| `Client.Operation.Prepare` | common/inc/vmaccel_compute.hpp:1644-1666 | the prepare step of an operation's life |
| `Client.Operation.PrepareArgs` | common/inc/vmaccel_compute.hpp:1715-1723 | the loop over the bindings pushes all of them, in order |
| `Client.Operation.Attempts` | common/inc/vmaccel_compute.hpp:1748-1787 | the retry loop: 100 attempts if the first argument whose copy is of another generation names a later one, and one attempt otherwise; the kernel is enqueued as often as SUCCESS was answered |
| `Client.Operation.AttemptOnce` | common/inc/vmaccel_compute.hpp:1728-1760 | one attempt with the client's generations is the backend's dispatch |
| `Client.Operation.Dispatch` | common/inc/vmaccel_compute.hpp:1673-1800 | the dispatch step of an operation's life: refused without effect if unprepared or dispatched, and otherwise push and attempt, repeated 100 times exactly if an upload is awaited |
| `Client.Operation.Quiesce` | common/inc/vmaccel_compute.hpp:1807-1847 | the quiesce step: all bindings are downloaded if the operation was prepared and dispatched, not yet quiesced, and the context has its client, and nothing changes otherwise |
| `Client.Operation.Finish` | common/inc/vmaccel_compute.hpp:1854-1869 | the state after finish in every case: nothing happens to an unprepared or quiesced operation, one dispatched before is downloaded if connected, a new one is pushed, attempted and, if accepted and connected, downloaded; in step and accepted, the backings of its bindings then hold what the kernel computed from the memory before |
| `Operations.AtMostOnce` | common/inc/vmaccel_compute.hpp:1644-1869 | over every sequence of calls and every answer of the backend, the kernel is enqueued at most once, exactly once if and only if some attempt was answered SUCCESS, no dispatch makes more than 100 attempts, and quiesced implies dispatched implies prepared |
| `Operations.CallEnqueues` | common/inc/vmaccel_compute.hpp:1673-1800 | a call enqueues the kernel exactly when it makes the operation a dispatched one; later calls make no attempt |
| `Operations.DispatchAnswers` | common/inc/vmaccel_compute.hpp:1673-1800 | an operation that is not prepared or was dispatched fails without an attempt; otherwise only the last attempt can be answered other than RESOURCE_UNAVAILABLE, that answer is returned, and giving up takes 100 attempts |
| `Operations.QuiesceAnswers` | common/inc/vmaccel_compute.hpp:1807-1847 | quiesce answers SUCCESS exactly when the operation ends up quiesced, FAIL exactly when it was neither quiesced nor dispatched, and RESOURCE_UNAVAILABLE exactly when only the connection is missing |
| `Operations.FinishCompletes` | common/inc/vmaccel_compute.hpp:1854-1869 | finishing a prepared operation leaves it dispatched if and only if it was or its last attempt succeeded, and quiesced with it |
| `Backend.MapCopyUnmapIsUpload` | backends/vmwopencl/src/vmwopencl_ops.c:1056-1209 | on an unmapped surface map, copy and unmap together are an image upload: same test, same outcome, unmapped again |
| `Backend.AllocAnswers` | backends/vmwopencl/src/vmwopencl_ops.c:651-761 | an active slot turns another surface away with RESOURCE_UNAVAILABLE and does not change; a free one takes it, generation and mapped address as they were |
| `Backend.UploadAnswers` | backends/vmwopencl/src/vmwopencl_ops.c:924-983 | SEMANTIC_ERROR exactly below the stored generation, FAIL exactly for shared memory otherwise; an accepted upload stores content and generation and changes nothing else, a refused one nothing at all |
| `Backend.MapAnswers` | backends/vmwopencl/src/vmwopencl_ops.c:1056-1146 | SEMANTIC_ERROR exactly below the stored generation, FAIL exactly for a slot without a buffer or a first map without an address; a first map yields the shared memory if there is any and otherwise what the device gives, a later one the address there is |
| `Backend.DeliverNewest` | backends/vmwopencl/src/vmwopencl_ops.c:944-972 | whatever the order of uploads, the slot ends with the content of the highest generation delivered |
| `Backend.OrderIndependent` | backends/vmwopencl/src/vmwopencl_ops.c:944-972 | any two orders of the same uploads with distinct generations leave the same slot |
| `Backend.DeliverMonotone` | backends/vmwopencl/src/vmwopencl_ops.c:1176-1203 | the stored generation never decreases while uploads are delivered |
| `Backend.MappingRun` | backends/vmwopencl/src/vmwopencl_ops.c:1102-1135 | over every run of maps and matching unmaps the count is the number of outstanding maps, the mapped address is set exactly while it is positive, and the device maps and unmaps a buffer once per epoch |
| `Backend.OverlappingMapsShare` | backends/vmwopencl/src/vmwopencl_ops.c:1102-1135 | overlapping mappers get the same address |
| `Backend.FailedMapIsCounted` | backends/vmwopencl/src/vmwopencl_ops.c:1102-1135 | a concrete map that fails on the device and is counted all the same |
| `Backend.FailedMapTracelessIff` | backends/vmwopencl/src/vmwopencl_ops.c:1070-1135 | a map that does not succeed leaves the slot as it was if and only if its generation is below the stored one or the slot holds no buffer |
| `Backend.CellsAfter` | backends/vmwopencl/src/vmwopencl_ops.c:1679-1685 | after a kernel the slot of each writable argument that it puts out at its size holds what it computed from the arguments' contents, and every other slot and field is as before; on contents that is the kernel applied to cells |
| `Backend.KernelWrites` | backends/vmwopencl/src/vmwopencl_ops.c:1679-1685 | what a kernel leaves: its arguments, if writable and put out at their own size, hold its results, and every other cell is as before |
| `Backend.DispatchSucceedsIff` | backends/vmwopencl/src/vmwopencl_ops.c:1585-1653 | a dispatch succeeds if and only if the device takes the kernel and every argument is a surface whose generation is the one the table holds |
| `Backend.RefusalIff` | backends/vmwopencl/src/vmwopencl_ops.c:1603-1619 | for settable arguments in the table, a dispatch answers RESOURCE_UNAVAILABLE if and only if the first argument whose generation differs names a later one than the table holds, SEMANTIC_ERROR if and only if it names an earlier one, and FAIL if and only if all agree and the device refuses the kernel |
| `Backend.UnusableArgument` | backends/vmwopencl/src/vmwopencl_ops.c:1585-1653 | an argument that is no surface of the table, or that the device does not accept, fails a dispatch whose earlier arguments pass |
| `Backend.LocksHeld` | backends/vmwopencl/src/vmwopencl_ops.c:1585-1595 | while the locks are held, a surface's mutex is held once for each argument that names the surface, and an instance's once for each that names the instance |
| `Backend.LockOrder` | backends/vmwopencl/src/vmwopencl_ops.c:1594-1595 | an instance is locked directly after its surface |
| `Backend.DispatchBalances` | backends/vmwopencl/src/vmwopencl_ops.c:1585-1699 | for every argument list and every stopping point the releases are the locks in reverse order, and every mutex ends at depth zero |
| `Backend.CleanupStartsInside` | backends/vmwopencl/src/vmwopencl_ops.c:1687-1699 | the cleanup loop starts at an argument if and only if there is one |
| `Backend.Stop` | backends/vmwopencl/src/vmwopencl_ops.c:1585-1653 | the first argument whose check fails: all before it pass, and it does not |
| `Backend.Server.constructor` | backends/vmwopencl/src/vmwopencl_ops.c:353-354 | a table of vacant slots |
| `Backend.Server.SurfaceAlloc` | backends/vmwopencl/src/vmwopencl_ops.c:651-761 | refused for an active slot; otherwise the slot is taken, its generation and mapped address as they were |
| `Backend.Server.SurfaceDestroy` | backends/vmwopencl/src/vmwopencl_ops.c:763-807 | the slot is vacant again |
| `Backend.Server.UploadImage` | backends/vmwopencl/src/vmwopencl_ops.c:924-983 | refused below the stored generation; otherwise content and generation are stored |
| `Backend.Server.SurfaceMap` | backends/vmwopencl/src/vmwopencl_ops.c:1056-1146 | refused below the stored generation and for a slot without a buffer; otherwise counted, and mapped on the device by the first |
| `Backend.Server.SurfaceUnmap` | backends/vmwopencl/src/vmwopencl_ops.c:1148-1209 | content and generation are stored unchecked, the count goes down, and the last unmap clears the mapped address |
| `Backend.Server.Dispatch` | backends/vmwopencl/src/vmwopencl_ops.c:1566-1714 | the kernel runs and is counted exactly on SUCCESS, the table is unchanged otherwise, and the log shows every lock released |
| `Backend.Server.LockArgs` | backends/vmwopencl/src/vmwopencl_ops.c:1585-1653 | the loop locks argument after argument up to the first that fails, and reports its status |
| `Backend.Server.Release` | backends/vmwopencl/src/vmwopencl_ops.c:1687-1699 | the cleanup loop releases from the last locked argument down to the first |
| `AllocatorClass.VMAccelAllocator.constructor` | common/inc/vmaccel_allocator.hpp:170-178 | an allocator with nothing registered, and its invariant |
| `AllocatorClass.VMAccelAllocator.Register` | common/inc/vmaccel_allocator.hpp:333-357 | a registration step on the least free identifier; FAIL without one |
| `AllocatorClass.VMAccelAllocator.Unregister` | common/inc/vmaccel_allocator.hpp:360-390 | an unregistration step: FAIL while referenced; otherwise the queue is drained and the parent's entries are erased |
| `AllocatorClass.VMAccelAllocator.Alloc` | common/inc/vmaccel_allocator.hpp:393-449 | an allocation step with its three outcomes, for whichever element the pool lookup returns |
| `AllocatorClass.VMAccelAllocator.Free` | common/inc/vmaccel_allocator.hpp:452-480 | a release step, queued or coalesced at once |
| `AllocatorClass.VMAccelAllocator.GiveBack` | common/inc/vmaccel_allocator.hpp:430-436 | an unsuccessful Alloc gives the external identifier back and leaves the books |
| `AllocatorClass.Erase` | common/inc/vmaccel_allocator.hpp:379-385 | erasing keeps exactly the entries of other parents, in order |
| `AllocatorClass.Search` | common/inc/vmaccel_allocator.hpp:408-425 | the lookup of Alloc, and FindFreed only if it finds nothing |
| `Pool.Coalesce` | common/inc/vmaccel_allocator.hpp:244-267 | the queue is put back into the pool, front first |
| `Pool.FindFreed` | common/inc/vmaccel_allocator.hpp:270-330 | the queue is drained until the request is met, entries of other parents are dropped, and the loop ends with the queue |
| `Pool.FreeObj` | common/inc/vmaccel_types_int.hpp:108-130 | an object joins the entry it is merged with, or becomes an entry |
| `Pool.Take` | common/inc/vmaccel_allocator.hpp:408-422 | a reservation from the entry that lower_bound returns |
| `Pool.LowerBound` | common/inc/vmaccel_allocator.hpp:408 | an entry that passes the comparator test behind one that fails it, or an end of the pool |
| `Pool.UpperBound` | common/inc/vmaccel_types_allocrange.hpp:168 | an entry above the key behind one that is not, or an end of the pool |
| `Allocator.WithoutConcat` | common/inc/vmaccel_allocator.hpp:360-391 | Unregister takes from the pool the entries of its resource and no others, and the rest stay in order |
| `Pool.FreeObjCases` | common/inc/vmaccel_types_allocrange.hpp:138-190 | an object goes back as an entry of its own or replaces exactly one entry |
| `Allocator.RunKeeps` | common/inc/vmaccel_allocator.hpp:163-480 | over every run the vectors keep their sizes, entries belong to registered parents, live slots are exactly the external identifiers, and reference counts are counts of reservations |
| `Ledger.RunKeepsBooks` | common/inc/vmaccel_allocator.hpp:333-475 | over every run the load is the sum of live reservations, capacity and load are all that was ever registered under the identifier, and the reference count of a registered resource is its number of reservations |
| `Ledger.UnregisterIff` | common/inc/vmaccel_allocator.hpp:360-390 | Unregister succeeds if and only if the resource has no reservation; then no entry of it is left, and, with nothing queued, the others keep theirs under every measure |
| `Closure.RunInherits` | common/inc/vmaccel_allocator.hpp:163-480 | over every run, what a resource hands down to its parts holds of every free, queued and live part |
| `AllocRanges.MergeOnlyPrepends` | common/inc/vmaccel_types_allocrange.hpp:138-190 | among disjoint ranges of resources that do not touch, a freed range is merged only with the range of its resource that begins where it ends: the appending branches are never taken |
| `AllocRanges.FreeRange` | common/inc/vmaccel_types_allocrange.hpp:138-190 | FreeObj adds exactly the freed range, whichever entries the two lookups return |
| `AllocRanges.ReserveSplits` | common/inc/vmaccel_types_allocrange.hpp:118-135 | Reserve cuts a well-formed range in two at the requested size, and fails exactly when it is too small |
| `AllocRanges.TakeRange` | common/inc/vmaccel_allocator.hpp:408-422 | taking from the pool moves exactly the reserved range |
| `AllocRanges.FindFreedRange` | common/inc/vmaccel_allocator.hpp:270-330 | draining the queue moves ranges between queue, pool and result, except the dropped ones |
| `RangeTiling.RunKeepsRanges` | common/inc/vmaccel_allocator.hpp:393-480 | over every run, eager or deferred, free, queued and live ranges are well formed, pairwise disjoint and inside their resource |
| `RangeDrops.SafeRunTiles` | common/inc/vmaccel_allocator.hpp:393-480 | in every run, eager or deferred, with any number of resources, whose requests find a lookup that cannot miss or a guarded queue, the ranges of each resource tile it |
| `RangeDrops.OwnQueueRunTiles` | common/inc/vmaccel_allocator.hpp:270-330 | in every deferred run whose requests find only ranges of their own resource in the queue, the ranges of each resource tile it |
| `RangeDrops.OneResourceRunTiles` | common/inc/vmaccel_allocator.hpp:270-330 | in every deferred run whose requests name the one registered resource, its ranges tile it |
| `RangeTiling.EagerRunTiles` | common/inc/vmaccel_allocator.hpp:393-480 | in every run of the eager build, with any number of resources, the ranges of each resource tile it |
| `RangeDrops.AllocTilesIff` | common/inc/vmaccel_allocator.hpp:285-288 | an Alloc, eager or deferred, keeps the tiling if and only if the part of the queue that it drained holds no range of another resource |
| `RangeDrops.MayDropIff` | common/inc/vmaccel_allocator.hpp:270-330 | some lookup makes a request drop a queued range only if its pool lookup may miss and a range of another resource stands in the queue before one that is large enough; and always then, if another resource is at the end of the pool or in front of the queue |
| `RangeDrops.QueuedRangeIsDropped` | common/inc/vmaccel_allocator.hpp:285-288 | a concrete queued range that a request to another resource drops |
| `RangeTiling.PiecesDisjoint` | common/inc/vmaccel_types_allocrange.hpp:40-47 | no two pieces of the allocator share an address |
| `RangeTiling.AddressHasPiece` | common/inc/vmaccel_types_allocrange.hpp:40-47 | every address of a tiled resource lies in one of its pieces |
| `RangeTiling.TouchingResourcesMerge` | common/inc/vmaccel_types_allocrange.hpp:152-158 | two concrete resources that touch, and a FreeObj that merges them |
| `RangeTiling.ForeignMergeIff` | common/inc/vmaccel_types_allocrange.hpp:138-190 | a range of a resource that has nothing in the pool, such as a new one, is merged with another resource if and only if it touches the range at the front of the pool |
| `Coalescing.OwnMergeIff` | common/inc/vmaccel_types_allocrange.hpp:138-190 | among free ranges of one resource, a freed range is joined if and only if one of its two lookups finds the range that begins where it ends; the pool then holds the joined range in place of that one, and otherwise the freed range besides what it held |
| `Coalescing.SingleMergeIff` | common/inc/vmaccel_types_allocrange.hpp:138-190 | with one free range in the pool, the freed one is joined to it if and only if it ends where that one begins; a free range that ends where the freed one begins stays apart |
| `Coalescing.RejoinedIff` | common/inc/vmaccel_allocator.hpp:270-330 | in every run, eager or deferred, that reserves a resource in two parts of any sizes, frees both and asks for all of it, the request succeeds if and only if the second part was freed first |
| `Coalescing.RejoinedRun` | common/inc/vmaccel_allocator.hpp:393-480 | for all sizes there is such a run, and it gets the whole resource back |
| `Coalescing.HalvesRejoin` | common/inc/vmaccel_types_allocrange.hpp:151-157 | the run on 0..19: two reservations of 10, the second freed and then the first, and 20 are had again |
| `Coalescing.CoalescedIff` | common/inc/vmaccel_allocator.hpp:244-267 | coalescing takes the queue oldest first: two queued parts of a resource are joined if and only if the second was freed first |
| `Coalescing.QueuedRangeServes` | common/inc/vmaccel_allocator.hpp:290-306 | a large enough range at the front of the queue serves the request from its beginning, and only the remainder goes to the pool |
| `BestFit.RunKeepsSorted` | common/inc/vmaccel_types_allocrange.hpp:49-59 | in every run with one resource, eager or deferred, the pool stays in order of size |
| `BestFit.EagerRunIsBestFit` | common/inc/vmaccel_allocator.hpp:402-435 | in every eager run with one resource Alloc succeeds if and only if an external identifier and a large enough range exist, cuts from the beginning of a smallest one, and otherwise changes nothing |
| `BestFit.RunIsBestFit` | common/inc/vmaccel_allocator.hpp:402-435 | in every run with one resource, whatever is queued, an Alloc with a large enough range in the pool cuts from the beginning of a smallest one and leaves the queue alone, and one with a large enough range in the queue is served |
| `RangeTiling.UnregisterKeepsOthers` | common/inc/vmaccel_allocator.hpp:360-390 | unregistering one resource, with whatever is queued, leaves every address that was free or queued of another one free |
| `RangeTiling.RangeRunBooks` | common/inc/vmaccel_types_allocrange.hpp:72-80 | over every run the load is the total size of the reservations, and capacity and load what was ever registered, modulo 2^64 |
| `Scalars.FreeAmount` | common/inc/vmaccel_types_int.hpp:108-130 | FreeObj adds exactly the freed amount and keeps one entry per resource |
| `ScalarRuns.RunKeepsAmounts` | common/inc/vmaccel_allocator.hpp:393-480 | over every run, any number of resources, amounts stay within what is registered, with one free entry per resource |
| `AmountDrops.SafeRunConserves` | common/inc/vmaccel_allocator.hpp:393-480 | in every run, eager or deferred, with any number of resources, whose requests find a lookup that cannot miss or a guarded queue and whose remainders are not taken for nothing when they are something, free, queued and live amounts of every resource add up to the registered one |
| `ScalarRuns.UnregisterKeepsOthers` | common/inc/vmaccel_allocator.hpp:360-390 | unregistering one resource, with whatever is queued, leaves all that was free or queued of another one free |
| `AmountDrops.AllocConservesIff` | common/inc/vmaccel_allocator.hpp:285-288 | an Alloc, eager or deferred, whose remainder is not taken for nothing when it is something conserves every resource if and only if the part of the queue that it drained holds nothing of another resource |
| `AmountDrops.MayDropIff` | common/inc/vmaccel_allocator.hpp:270-330 | some lookup makes a request drop a queued amount if and only if its pool lookup may miss, and an entry of another resource stands in the queue before one that is large enough, with another resource in the pool or too little before it in pool and queue together |
| `ScalarRuns.SearchExact` | common/inc/vmaccel_allocator.hpp:270-330 | with one resource the search succeeds if and only if free and queued amounts cover the request, and drops nothing |
| `Drops.SearchDropsIff` | common/inc/vmaccel_allocator.hpp:270-330 | for every element type: a search drops something if and only if an entry of another resource is in the part of the queue that it drained |
| `Drops.SafeKeeps` | common/inc/vmaccel_allocator.hpp:270-330 | for every element type: a search whose lookup cannot miss, or whose queue has no entry of another resource before one that is large enough, drops nothing |
| `Drops.FrontDropIff` | common/inc/vmaccel_allocator.hpp:285-288 | for every element type: with another resource in front of the queue, a search may drop it if and only if its lookup may miss |
| `ScalarRuns.DeferredIsInvisible` | common/inc/vmaccel_allocator.hpp:460-466 | two runs of the same calls, one deferring frees and one not, give the same replies at every call, when the one resource is named and no remainder is taken for nothing |
| `IntAmounts.IntRunConserves` | common/inc/vmaccel_types_int.hpp:97-130 | integers: pool and reservations of every resource add up to the registered amount over every eager run |
| `IntAmounts.IntSafeRunConserves` | common/inc/vmaccel_allocator.hpp:393-480 | integers: in every run, eager or deferred, with any number of resources, whose requests are safe, free, queued and reserved amounts add up to the registered one |
| `IntAmounts.IntOneResourceConserves` | common/inc/vmaccel_allocator.hpp:270-330 | integers: the same for every deferred run whose requests name the one registered resource |
| `IntAmounts.QueuedAmountIsDropped` | common/inc/vmaccel_allocator.hpp:285-288 | a concrete queued amount that a request to another resource drops |
| `IntAmounts.IntAllocExact` | common/inc/vmaccel_allocator.hpp:393-449 | integers: in every run, eager or deferred, whose earlier requests were safe, a request to the one registered resource succeeds if and only if an external identifier is free and it fits the unallocated amount, and a failed one changes nothing but the place of queued amounts |
| `IntAmounts.IntDeferredIsInvisible` | common/inc/vmaccel_allocator.hpp:244-330 | integers: deferring frees is invisible |
| `IntAmounts.IntBooksStay` | common/inc/vmaccel_types_int.hpp:44-52 | integers: the capacity and load books never move |
| `IntAmounts.IntBooksRightIff` | common/inc/vmaccel_types_int.hpp:44-52 | integers: the load is the sum of the reservations if and only if that is zero, and capacity and load are what was ever registered if and only if that is zero |
| `IntAmounts.RegistrationIsNotBooked` | common/inc/vmaccel_types_int.hpp:44-52 | a concrete registration that leaves the capacity at zero |
| `DescAmounts.DescReservation` | common/inc/vmaccel_types_desc.hpp:262-277 | over every run a reservation has the requested capacity and the attributes of its resource |
| `DescAmounts.DescDeferredIsInvisible` | common/inc/vmaccel_allocator.hpp:244-330 | descriptors: deferring frees is invisible in every two runs of the same calls in which no remainder that is something is taken for nothing |
| `DescAmounts.EmptyButSomething` | common/inc/vmaccel_types_desc.hpp:253-260 | a capacity is taken for nothing although it is something if and only if its fields add up to a positive multiple of 2^32 |
| `DescAmounts.WrappedRemainderIsLost` | common/inc/vmaccel_types_desc.hpp:253-260 | a concrete capacity whose remainder vanishes from the pool |
| `DescAmounts.DescRunConserves` | common/inc/vmaccel_types_desc.hpp:38-60 | over every eager run that loses nothing the compared dimensions add up to the registered ones without wrap |
| `DescAmounts.DescRunConservesMod` | common/inc/vmaccel_types_desc.hpp:62-103 | over every eager run that wraps no remainder all nine dimensions are conserved modulo 2^32 |
| `DescAmounts.FreeingAllRestores` | common/inc/vmaccel_types_desc.hpp:280-311 | when the last reservation is freed, in any order, the pool holds exactly the registered descriptor again |
| `DescInputs.DescAllocExact` | common/inc/vmaccel_allocator.hpp:393-449 | descriptors: in every run, eager or deferred, whose earlier requests were safe and left no remainder taken for nothing, a request to the one registered resource succeeds if and only if an external identifier is free and it fits the unallocated capacity in the three compared dimensions, and a failed one changes nothing but the place of queued capacity |
| `DescInputs.PlainRunLossless` | common/inc/vmaccel_types_desc.hpp:253-260 | in every run, eager or deferred, of descriptors that use the compared dimensions only, registered with fields that add up below 2^32, a remainder taken for nothing is nothing |
| `DescInputs.PlainDeferredIsInvisible` | common/inc/vmaccel_allocator.hpp:460-466 | for such descriptors deferring frees is invisible without further condition |
| `DescInputs.PlainRunConserves` | common/inc/vmaccel_types_desc.hpp:262-311 | for such descriptors every run, eager or deferred, whose requests are safe conserves every resource |
| `DescInputs.ModestRunWrapsNone` | common/inc/vmaccel_types_desc.hpp:253-277 | in every eager run whose registered fields add up below 2^32 and whose requests, if they fit in the compared dimensions, fit in all nine, no remainder that is something is taken for nothing |
| `DescInputs.ModestRunConserves` | common/inc/vmaccel_types_desc.hpp:62-103 | in such a run pool and reservations add up to the registered capacity in all nine dimensions, without wrap |
| `DescInputs.ModestFreeingRestores` | common/inc/vmaccel_types_desc.hpp:280-311 | in such a run freeing all reservations, in any order, restores the registered descriptor |
| `DescAmounts.DescRunBooks` | common/inc/vmaccel_types_desc.hpp:141-149 | over every run the books of all nine dimensions are the sums they should be |
| `IdentifierRuns.AllocReleaseRun` | common/src/vmaccel_utils.c:193-225 | over every run of AllocId and ReleaseId the counter is size minus the number of active identifiers, AllocId returns the least inactive one, fails if and only if all are active, and never reaches its assertion |
| `IdentifierRuns.DriftRun` | common/src/vmaccel_utils.c:158-168 | with AcquireId in the run the counter is off by exactly the identifiers it entered |
| `IdentifierRuns.CountExactIff` | common/src/vmaccel_utils.c:136-138 | over every run what Count returns is the number of active identifiers if and only if AcquireId entered a multiple of 2^32 of them |
| `IdentifierRuns.AcquiredIsNotCounted` | common/src/vmaccel_utils.c:158-168 | a concrete AcquireId after which one identifier is active and the count is zero |
| `IdentifierRuns.FirstAllocCorruptedIff` | common/src/vmaccel_utils.c:125-134 | the first allocation reaches the corrupted-database assertion if and only if the size is above 2^32 - 32 |
| `IdentifierRuns.WordsCoverSize` | common/src/vmaccel_utils.c:125-134 | the words cover all identifiers if and only if size + 31 does not wrap |
| `IdentifierRuns.CountedAlloc` | common/src/vmaccel_utils.c:193-211 | an allocation on an exact database takes the least free identifier, below the size, and fails if and only if it is full |
| `IdentifierDb.TouchedExactly` | common/src/vmaccel_utils.c:170-187 | a range call touches exactly its range if and only if the range is shorter than 32 or starts a word |
| `IdentifierDb.ReleaseRangeExactly` | common/src/vmaccel_utils.c:227-241 | a range release removes exactly its range if and only if it touches exactly it or nothing active lies below it in its first word |
| `IdentifierDb.IdentifierDB.constructor` | common/src/vmaccel_utils.c:125-134 | an empty set with a full counter |
| `IdentifierDb.IdentifierDB.ActiveId` | common/src/vmaccel_utils.c:150-156 | membership, false beyond the size |
| `IdentifierDb.IdentifierDB.AcquireId` | common/src/vmaccel_utils.c:158-168 | adds an inactive identifier and does not count it |
| `IdentifierDb.IdentifierDB.AllocId` | common/src/vmaccel_utils.c:193-211 | the word scan returns the least inactive identifier, adds it and counts it |
| `IdentifierDb.IdentifierDB.ReleaseId` | common/src/vmaccel_utils.c:213-225 | removes an active identifier and counts it |
| `IdentifierDb.IdentifierDB.ReleaseIdRange` | common/src/vmaccel_utils.c:227-241 | removes exactly the touched identifiers, across any number of words |
| `IdentifierDb.IdentifierDB.AcquireIdRange` | common/src/vmaccel_utils.c:170-187 | true adds exactly the touched identifiers, all inactive before; false leaves the words up to the first conflict added |
| `IdentifierDb.IdentifierDB.Count` | common/src/vmaccel_utils.c:136-138 | the count and the counter together make up the size as unsigned integers, and the count is the number of active identifiers when the counter is exact |
| `Words.FindFirstZero` | common/src/vmaccel_utils.c:63-92 | the bisection finds the least zero bit, or -1 exactly for a full word |
| `Words.Mask` | common/src/vmaccel_utils.c:176-179 | the mask of an iteration is the shifted block of bits, cut off at the word's end, or the whole word for 32 bits |
| `Xdr.DescRoundTripIff` | accelerators/vmaccel/src/vmaccel_rpc_xdr.c:267-384 | decoding an encoded descriptor followed by any bytes gives it and those bytes back, if and only if its address has at most four bytes |
| `Xdr.DispatchRoundTrip` | accelerators/vmcl/src/vmcl_rpc_xdr.c:267-311 | decoding an encoded dispatch followed by any bytes gives it and those bytes back |
| `Xdr.ReturnStatusRoundTripIff` | accelerators/vmaccel/src/vmaccel_rpc_xdr.c:923-936 | a return status survives if and only if it carries a result only with error number 0, and then one with a nonce of at most four bytes |
| `Xdr.AddressRoundTrip` | accelerators/vmaccel/src/vmaccel_rpc_xdr.c:144-155 | an address within its maximum survives the wire |
| `Xdr.WorkloadRoundTrip` | accelerators/vmaccel/src/vmaccel_rpc_xdr.c:174-265 | a workload survives the wire |
| `Xdr.BytesRoundTrip` | accelerators/vmaccel/src/vmaccel_rpc_xdr.c:135-143 | opaque data survives with its padding (section 4.10 of RFC 4506) |
| `Xdr.ArrayRoundTrip` | accelerators/vmaccel/src/vmaccel_rpc_xdr.c:282-286 | an array survives if its items do (section 4.13 of RFC 4506) |
| `XdrLayout.BigEndian` | accelerators/vmaccel/src/vmaccel_rpc_xdr.c:183-211 | a word is four bytes, the most significant first (section 4.2 of RFC 4506) |
| `XdrLayout.OpaqueLayout` | accelerators/vmaccel/src/vmaccel_rpc_xdr.c:135-143 | opaque data is its length, the bytes, and the fewest zeros that make a multiple of four (section 4.10 of RFC 4506) |
| `XdrLayout.ArrayLayout` | accelerators/vmaccel/src/vmaccel_rpc_xdr.c:282-286 | an array is its length and then its elements (section 4.13 of RFC 4506) |
| `XdrLayout.DispatchLayout` | accelerators/vmcl/src/vmcl_rpc_xdr.c:267-311 | a dispatch is, word by word, its queue, kernel and dimension, three arrays of work sizes, the arguments and the references |
| `XdrLayout.ReturnStatusLayout` | accelerators/vmaccel/src/vmaccel_rpc_xdr.c:923-936 | a return status is its error number in two's complement and, if that is zero, a word that says whether nonce and status follow |
| `XdrStream.DescChain` | accelerators/vmaccel/src/vmaccel_rpc_xdr.c:271-311 | a descriptor is the concatenation of its parts, in the order of the format |
| `XdrStream.AddressChain` | accelerators/vmaccel/src/vmaccel_rpc_xdr.c:144-155 | an address is its location, port, resource type and sub-device |
| `XdrStream.WorkloadChain` | accelerators/vmaccel/src/vmaccel_rpc_xdr.c:178-211 | a workload is its nine words, in order |
| `XdrStream.LimitsChain` | accelerators/vmaccel/src/vmaccel_rpc_xdr.c:289-311 | the limits are their six words, in order |
| `XdrStream.Writer.WriteWorkload` | accelerators/vmaccel/src/vmaccel_rpc_xdr.c:178-211 | the inlined path and the path by fields append the same 36 bytes, and succeed if and only if these fit |
| `XdrStream.Writer.WriteLimits` | accelerators/vmaccel/src/vmaccel_rpc_xdr.c:289-311 | the inlined path and the path by fields append the same 24 bytes, and succeed if and only if these fit |
| `XdrStream.Writer.WriteBytes` | accelerators/vmaccel/src/vmaccel_rpc_xdr.c:145-147 | length, data and zero padding, refused above the maximum |
| `XdrStream.Writer.WriteAddress` | accelerators/vmaccel/src/vmaccel_rpc_xdr.c:144-155 | the address as the format prescribes, refused above four bytes |
| `XdrStream.Writer.WriteFormats` | accelerators/vmaccel/src/vmaccel_rpc_xdr.c:282-286 | the array of format capabilities, item by item |
| `XdrStream.Writer.WriteDesc` | accelerators/vmaccel/src/vmaccel_rpc_xdr.c:271-311 | whichever paths are inlined, the descriptor's encoding is appended, if and only if it fits and the address is short enough |
| `XdrStream.Reader.ReadWorkload` | accelerators/vmaccel/src/vmaccel_rpc_xdr.c:212-244 | the inlined path and the path by fields read the same value and leave the same rest, or both are stuck |
| `XdrStream.Reader.ReadLimits` | accelerators/vmaccel/src/vmaccel_rpc_xdr.c:330-352 | the same for the six limits |
| `XdrStream.Reader.ReadBytes` | accelerators/vmaccel/src/vmaccel_rpc_xdr.c:145-147 | opaque data, refused above the maximum or when the input ends early |
| `XdrStream.Reader.ReadAddress` | accelerators/vmaccel/src/vmaccel_rpc_xdr.c:144-155 | the address as the format prescribes |
| `XdrStream.Reader.ReadFormats` | accelerators/vmaccel/src/vmaccel_rpc_xdr.c:323-327 | the array of format capabilities, stuck exactly when the format is |
| `XdrStream.Reader.ReadDesc` | accelerators/vmaccel/src/vmaccel_rpc_xdr.c:312-353 | whichever paths are inlined, the routine returns what the format prescribes, or fails exactly when the input does not hold a descriptor |
| `Spirv.MakeVector` | frontends/vmxc/src/vmxc_spirv_base.hpp:79-101 | the words hold the string and only zeros after it, in len/4 + 1 words |
| `Spirv.UnpackIff` | frontends/vmxc/src/vmxc_spirv_base.hpp:79-101 | a packed string unpacks to itself if and only if it has no NUL byte |
| `Spirv.ModuleCloneIff` | frontends/vmxc/src/vmxc_spirv_clone.cpp:103-218 | the clone of a module equals it word for word if and only if every instruction's first word is made of its count and opcode and every word that no operand covers is zero |
| `Spirv.ClonedWords` | frontends/vmxc/src/vmxc_spirv_clone.cpp:119-218 | each word of a clone: count and opcode in the halves of the first, copies where an operand is, zeros where none is |
| `Spirv.OpcodeHalves` | frontends/vmxc/src/vmxc_spirv_clone.cpp:185-187 | the upper half of a first word is the word count, the lower half the opcode |
| `Spirv.ModuleStarts` | frontends/vmxc/src/vmxc_spirv_clone.cpp:103-117 | a module is its five header words, in order, and then its instructions from the first on |
| `Spirv.LittleEndian` | frontends/vmxc/src/vmxc_spirv_base.hpp:79-101 | a word is its four bytes, the low-order byte first (section 2.2.1 of the SPIR-V specification) |
| `Spirv.CloneIff` | frontends/vmxc/src/vmxc_spirv_clone.cpp:119-218 | an instruction is its own clone if and only if its first word is made of its count and opcode and every word that no operand covers is zero |
| `Spirv.Cloner.ProcessHeader` | frontends/vmxc/src/vmxc_spirv_clone.cpp:103-117 | the five header words are appended |
| `Spirv.Cloner.ProcessInstruction` | frontends/vmxc/src/vmxc_spirv_clone.cpp:119-218 | the words that operands cover, zeros elsewhere, and a new first word are appended |
| `Spirv.Cloner.CopyOperands` | frontends/vmxc/src/vmxc_spirv_clone.cpp:158-183 | the operand loop copies exactly the covered words, overlapping operands included |
| `Spirv.Cloner.Clone` | frontends/vmxc/src/vmxc_spirv_clone.cpp:103-218 | a parse appends the header and the clone of every instruction, in order |
| `Spirv.Cloner.TakeSPIRV` | frontends/vmxc/src/vmxc_spirv_clone.cpp:91-93 | the words are handed over and the cloner is empty again |

## Left out

- Sockets, threads and data streaming (`common/src/vmaccel_stream.c`): only the order in which uploads arrive matters here, and `Backend.OrderIndependent` covers every order.
- OpenCL: device calls take effect at once and in order. Mapping, accepting a kernel argument and enqueueing a kernel may fail where the code looks at the outcome; creating buffers does not fail.
- Concurrency: each client call is one step, as the context's lock makes it; a kernel runs when it is enqueued.
- Several contexts sharing a surface, and overlapping maps of different generations: the backend's table is indexed by surface alone and does not keep the invariant there.
- RPC stubs, lost replies and service tables: on a remote backend a call is answered.
- `imagedownload`, `fill_surface`, `copy_surface` and forced uploads, downloads and dispatches.
- Surfaces created when no identifier is left: the constructor does not look at the outcome and goes on with an invalid identifier.
- The consistency database of a surface is the one bit of its one context; `Consistency.UploadClearsAllBits` is the link to the database.
- Memory ownership (`malloc`, `free`, deep copies, moves, shared pointers): values are copied.
- Fences: waiting for one succeeds. Where it does not, `CoalesceFreed` and `FindFreed` try again without end.
- Mutexes of the mapping calls: `surfaceunmap` unlocks an instance mutex that it did not lock.
- `BitMask_FindFirstOne`, logging, time statistics, address conversion, and starting and stopping the services: they keep no invariant of their own.
- SPIRV-Tools, validation, and transcoders that print: the parser's output is the cloner's input here.
- Client.Accelerator.CreateSurface: surfaces of the system memory pool are created on local backends only, since the code stops with an assertion when a remote one pushes such a surface.
- Client.Operation.Dispatch: needs at least one binding, since the backend reads past an empty argument list, and attempts follow one another without another thread in between; `Operations.AtMostOnce` has no such limits.
- Backend.Server.Dispatch: needs arguments whose surfaces lie in the table, since the code indexes it unchecked.
- Backend.Server.SurfaceAlloc: a failing buffer creation and its error statuses are not modelled.
- AllocatorClass.VMAccelAllocator.Register: the branch for a failing multiset insertion is not modelled, since `insert` returns an element.
- IntAmounts.IntRunConserves: amounts are below 2^31, so that signed overflow does not occur.
- RangeTiling.EagerRunTiles: registered ranges are well formed and do not touch one another, and requests are for at least one address; `RangeTiling.TouchingResourcesMerge` shows why.
- BestFit.RunIsBestFit: for one resource, where the pool's comparator is an order. Without a large enough range in pool or queue, whether a deferred build puts one together depends on where its lookups end.
- RangeDrops.MayDropIff: one way when the pool ends with a range of the requested resource, or is empty, and the queue starts with one, since it is then left to the lookups of FreeObj whether ranges are put together before the queue comes to another resource.
- RangeTiling.ForeignMergeIff: for a resource with nothing in the pool; with an entry of its own in the pool, where the lookups end decides.
- IntAmounts.IntAllocExact: for one registered resource at the time of the request; a failed request may move queued amounts into the pool.
- DescInputs.DescAllocExact: for one registered resource at the time of the request; a failed request may move queued capacity into the pool.
- DescAmounts.DescDeferredIsInvisible: the condition is on the remainders of both runs; DescInputs.PlainDeferredIsInvisible has it on the inputs.
- Consistency.DownloadRefinesIff: for a surface that is not resident the backend stops with an assertion; the model has what follows it, the answer FAIL.
- ScalarRuns.DeferredIsInvisible: for one registered resource, which every request names.
- Xdr.DispatchRoundTrip: dispatches and return statuses are modelled on values; the cursor's movement is modelled for the descriptor only. The library's own routines (`xdr_u_int`, `xdr_bytes`, `xdr_array`, `xdr_pointer`) follow RFC 4506.
- Spirv.Cloner.TakeSPIRV: the variant of `GetSPIRV` that copies into a buffer of given size is left out.
- Coalescing.OwnMergeIff: in terms of what the two lookups find, since the pool is in order of size and not of address; for one free range `Coalescing.SingleMergeIff` has it on the ranges alone.
