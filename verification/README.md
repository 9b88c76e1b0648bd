# Verified core of the profiler

A Dafny model of the parts of the .NET profiler and its test tooling where most of the reasoning lies,
with machine-checked proofs.

| part | files |
|---|---|
| Ring buffer shared by signal handlers and a reader thread | `Words`, `RingArithmetic`, `RingMemory`, `RingCore`, `RingProtocol`, `RingSafety`, `RingSession`, `RingMapping`, `RingBuffer` |
| Flame-graph tree: insert, merge, fix, rename, iterate, prune, decode | `Names`, `Sums`, `MinHeap`, `TreeStore`, `TreeInsert`, `TreeWalk`, `TreeMinValue`, `TreeMerge`, `TreeFix`, `TreeRename`, `FlameTree`, `Varint`, `TreeDecode`, `TreeRoundTrip`, `TreeAttach`, `TreeTotals` |
| Libraries and symbol cache: index, lookup, worker protocol | `SymbolScan`, `SymbolCache`, `CacheProtocol`, `CacheService` |
| UTF conversion and normalization | `MiniUtf`, `Normalize`, `StarterRule` |
| Garbage collection state machine | `GcEvents`, `GcNotices` |
| ETW event matcher | `EtwMatcher`, `EtwSent` |
| Hybrid unwinder and its trace | `Unwinder`, `UnwinderFrames`, `UnwinderTrace` |
| Adaptive sampler | `SampleCounts`, `AdaptiveSampler`, `SamplerProtocol`, `SamplerRoll` |
| Shared helpers | `Collections` |

`dafny verify dfyconfig.toml` checks everything.

## How the code is modelled

- Objects that are updated in place are classes (`Ring`, `Tree`, `Parser`, `Manager`, `Callstack`, `Recorder`,
  `Sampler`); their methods are proved against functions on the abstract state, and the theorems are about
  those functions.
- Concurrent code is a state machine with one step per atomic access: `RingProtocol` for the ring buffer,
  `CacheProtocol` for the cache, `SampleCounts` for the compare-and-swap loop, `SamplerProtocol` for calls and
  window rolls. A run is any sequence of enabled steps, so each theorem about reachable states holds for every
  interleaving. The steps use the same functions as the classes.
- The ring protocol works on the data area modulo its size. `RingMapping` proves that this is what the accesses
  do when they go through the two overlapping mappings of the file.
- Tree nodes live in an arena: a sequence of nodes that refer to each other by index. Node 0 is the virtual
  root whose children are the roots of the tree. `live` is the set of nodes that are part of the tree.
- Machine integers are unbounded, and wrap-around is written out where it matters: 64-bit addresses and masks,
  32-bit symbol offsets, 16-bit payload lengths, the signed collection number.
- Time, memory contents, the loader's module list, the libunwind cursor, random numbers, combining classes and
  composition tables are parameters, and the theorems hold for all their values.

## Assumptions

- Ring buffer: stream positions stay below 2^64; one reader at a time; samples of a size that fits 64 bits with
  its header; a page of at least 8 bytes and less than 2^62; atomic accesses are sequentially consistent.
- Symbol cache: the loader places executable ranges without overlap and without wrapping (`WellPlaced`), and
  there are fewer than 2^32 symbols.
- Cache protocol: up to `StopImpl`; the loader's list is read atomically, as under the loader lock.
- Unwinder and ETW matcher: 64-bit addresses; IsManaged and the timestamp conversion are arbitrary functions.
- Sampler: real arithmetic; the weight of a lookback is any function into [0, 1); one thread rolls the windows.

## Where a promise does not hold as stated

- The bound check on a frame pointer wraps for the last 16 addresses. `ValidFpWithin` gives the exact
  condition, `WrappedFpAccepted` an input, `WalkWithin` a condition on the stack under which all reads are
  within bounds.
- A contention may be told with the stack of an earlier one: `StackLeftOver` and `StackIsOwnExactly`.
- A library notified before the instance is set may stay out of the cache: `EarlyNotificationDropped` has an
  input, `EarlyNotificationServedExactly` says exactly which of these notifications are served.
- UTF-8 decoding accepts encoded surrogates: `SurrogateLost` has the inputs, `RoundTrip8` the exact condition for
  the round trip through UTF-16.
- A generation-2 collection of the foreground kind is never reported as ended, and hides the end of a background
  one: `FullForegroundNeverEnds` is a run, `ForegroundEndedExactly` says exactly which starts are ended and where,
  `StuckForeground` what such a start does to the rest.
- The composition pass takes the first code point for a starter whatever its class: `LeadingMarkComposes` has the
  inputs, `FirstAsStarterExactly` the exact condition on the tables under which this makes no difference.
- A negative number of samples per window makes the sample average negative: `NeverNegativeExactly` says that it
  never is, in any interleaving, exactly when that number is not negative.
- A roll does not always leave a clear slot behind, nor work as one step: `SlotNotClear` is a run. The exact
  conditions, on the calls of the closed window that are under way, are `TestsClearExactly` for the tests,
  `SlotClearExactly` for both counts and `RollAtomicExactly` for the whole effect; `TestsConserved` and
  `SamplesConserved` say what a roll may lose.
- A trace has one finish event unless the callstack fills while the chain of frame pointers is followed, where it
  has two; a callstack that fills in the native loop or with the first managed frame leaves one.
  `UnwoundFinishes` gives the exact condition and `TwoFinishes` an input.
- The recorder keeps 256 events, so a trace may be kept without its finish: `KeptEndsWithFinish` says exactly when
  it is there, `UnwoundLength` how long a trace is, `DeepStackLosesFinish` that 127 native frames are enough.
- A repeated sibling name in an encoded tree leaves weight behind in the totals: `RepeatedNameInput` is an input,
  `DecodedLawExactly` says exactly which encoded trees keep the total law, `AttachRepeated` what one node does.
- A buffer made for more than 2^63 bytes has no data area and accepts every reservation: `AcceptedFitsExactly`.

## Model

| member | source | states |
|---|---|---|
| `RingArithmetic.AlignUp` | profiler/src/ProfilerEngine/Datadog.Profiler.Native.Linux/RingBuffer.cpp:62-69 | the result is the least multiple of the power of two that is at least x, and 0 exactly when that multiple does not fit in 64 bits |
| `RingArithmetic.NextPowerOfTwo` | profiler/src/ProfilerEngine/Datadog.Profiler.Native.Linux/RingBuffer.cpp:71-82 | the result is the least power of two that is at least the size, for every size up to 2^63, and 0 above that |
| `RingArithmetic.DoubleMapping` | profiler/src/ProfilerEngine/Datadog.Profiler.Native.Linux/RingBuffer.cpp:143-203 | under the two overlapping mappings, every data address below twice the data size denotes the file byte of its residue, and never a metadata byte |
| `RingCore.MaskIsLinear` | profiler/src/ProfilerEngine/Datadog.Profiler.Native.Linux/RingBuffer.cpp:84-88 | masking a position with the size minus one is taking it modulo the size |
| `RingCore.StrideIsAlignUp` | profiler/src/ProfilerEngine/Datadog.Profiler.Native.Linux/RingBuffer.cpp:275-282 | the stride recomputed from the sample size is the fixed stride of the configuration, and is not zero |
| `RingSafety.StepInv` | profiler/src/ProfilerEngine/Datadog.Profiler.Native.Linux/RingBuffer.cpp:275-403 | every atomic step of any number of sample holders and one reader keeps the invariant that ties memory, cursors, owners and the history of reservations |
| `RingSafety.CursorBounds` | profiler/src/ProfilerEngine/Datadog.Profiler.Native.Linux/RingBuffer.cpp:275-403 | in every interleaving the three cursors are in order, at most mask bytes apart, and sit at multiples of one stride that count the reservations, the passed and the released records |
| `RingSafety.NoSharedByte` | profiler/src/ProfilerEngine/Datadog.Profiler.Native.Linux/RingBuffer.cpp:295-312 | no two outstanding records share a byte of the data area, wrapped or not |
| `RingSafety.DeliveredExactly` | profiler/src/ProfilerEngine/Datadog.Profiler.Native.Linux/RingBuffer.cpp:369-403 | over all reader sessions, what was handed out is, in reservation order, exactly the payloads of the committed records passed; none that is still reserved has been passed |
| `RingSafety.SettledOnce` | profiler/src/ProfilerEngine/Datadog.Profiler.Native.Linux/RawSampleCollectorBase.h:25-92 | along every run a settled record never changes again, and what was delivered stays delivered |
| `RingSafety.SettleClearsReserved` | profiler/src/ProfilerEngine/Datadog.Profiler.Native.Linux/RingBuffer.cpp:323-344 | when a holder is destroyed its record is still reserved, so the exclusive-or clears the reserved bit; the header keeps the size and says discarded exactly if asked |
| `RingSafety.HandedOutBytesStay` | profiler/src/ProfilerEngine/Datadog.Profiler.Native.Linux/RingBuffer.cpp:354-361 | the bytes of a record handed out stay what its writer stored, whatever others do, until that reader is dropped |
| `RingSafety.NextRecordMeaning` | profiler/src/ProfilerEngine/Datadog.Profiler.Native.Linux/RingBuffer.cpp:369-403 | the reader stops exactly at its tail or at a record still reserved, skips exactly the discarded records, and advances by the writer's stride |
| `RingSafety.ReaderAssertions` | profiler/src/ProfilerEngine/Datadog.Profiler.Native.Linux/RingBuffer.cpp:346-352 | both assertions of the reader's constructor hold whenever a reader may be opened; what the session then covers is `SessionCovers` |
| `RingSafety.AvailableSamples` | profiler/src/ProfilerEngine/Datadog.Profiler.Native.Linux/RingBuffer.cpp:363-367 | the division counts exactly the records between the reader and its tail; for a new session these are all that are not passed, by `SessionCovers` |
| `RingSession.SessionCovers` | profiler/src/ProfilerEngine/Datadog.Profiler.Native.Linux/RingBuffer.cpp:346-367 | a reader opened in any reachable state has the writers' position for its tail, so it covers every record reserved so far that no earlier session passed, and AvailableSamples counts exactly these |
| `RingSession.SameSession` | profiler/src/ProfilerEngine/Datadog.Profiler.Native.Linux/RingBuffer.cpp:346-403 | until the reader is dropped its session covers the same records, whatever the writers do |
| `RingSession.SessionComplete` | profiler/src/ProfilerEngine/Datadog.Profiler.Native.Linux/RingBuffer.cpp:346-403 | in every interleaving, a session read until nothing is found has passed every record reserved before it was opened up to the first still reserved, and handed out, beyond what earlier sessions did, exactly the committed payloads among them, in order |
| `RingSession.SettledSessionComplete` | profiler/src/ProfilerEngine/Datadog.Profiler.Native.Linux/RingBuffer.cpp:346-403 | if all records were settled when the reader was opened, GetNext finds nothing exactly when all have been passed, and then the committed payloads of the whole log have been handed out |
| `RingSession.ReadsPass` | profiler/src/ProfilerEngine/Datadog.Profiler.Native.Linux/RingBuffer.cpp:363-403 | each turn of GetNext passes one record of a settled session until none is left, whatever happens in between |
| `RingSession.WrittenIsDelivered` | profiler/src/ProfilerEngine/Datadog.Profiler.Native.Linux/RawSampleCollectorBase.h:25-92 | what a holder stores last over its buffer and commits is what the record holds ever after, in every interleaving, and what a reader that passes the record hands out |
| `RingSession.DiscardedNotDelivered` | profiler/src/ProfilerEngine/Datadog.Profiler.Native.Linux/RingBuffer.cpp:369-403 | a discarded record is passed and nothing of it is handed out |
| `RingSession.ReserveExactly` | profiler/src/ProfilerEngine/Datadog.Profiler.Native.Linux/RingBuffer.cpp:275-321 | a thread that enters comes out owning the next record of the log if there is room for one, and otherwise with nothing and nothing changed |
| `RingSession.RoomComesBack` | profiler/src/ProfilerEngine/Datadog.Profiler.Native.Linux/RingBuffer.cpp:354-361 | dropping a reader that has passed every record frees all the room |
| `RingMapping.MappedReadIs` | profiler/src/ProfilerEngine/Datadog.Profiler.Native.Linux/RingBuffer.cpp:143-203 | reading consecutive addresses below twice the data size through the two mappings is reading the data area modulo its size |
| `RingMapping.MappedWriteIs` | profiler/src/ProfilerEngine/Datadog.Profiler.Native.Linux/RingBuffer.cpp:143-203 | storing byte by byte through the two mappings is writing the data area modulo its size, and leaves the metadata alone |
| `RingMapping.StoreBelowTwice` | profiler/src/ProfilerEngine/Datadog.Profiler.Native.Linux/RingBuffer.cpp:275-344 | in every reachable state, whatever step stores a header or a payload stays below twice the data size |
| `RingMapping.FileRunIs` | profiler/src/ProfilerEngine/Datadog.Profiler.Native.Linux/RingBuffer.cpp:275-403 | every run, made through the mappings, leaves the file with the protocol's memory behind unchanged metadata |
| `RingMapping.HandedOutThroughMapping` | profiler/src/ProfilerEngine/Datadog.Profiler.Native.Linux/RingBuffer.cpp:354-403 | the consecutive addresses a reader is handed, across the wrap or not, hold what the writer committed until that reader is dropped, whatever others store through the mappings |
| `RingMapping.NextReadThroughMapping` | profiler/src/ProfilerEngine/Datadog.Profiler.Native.Linux/RingBuffer.cpp:369-403 | the header and the payload of the reader's next record, read through the mappings, are those of the log |
| `RingBuffer.Create` | profiler/src/ProfilerEngine/Datadog.Profiler.Native.Linux/RingBuffer.cpp:104-206 | for every requested size: an empty ring that keeps the invariant, its data area the least power of two that holds a page and that size, exactly if the size is at most 2^62 and the system maps it; refused up to 2^63; without a data area above that; the invariant needs a sample size that fits 64 bits with its header |
| `RingBuffer.AcceptsIsRoom` | profiler/src/ProfilerEngine/Datadog.Profiler.Native.Linux/RingBuffer.cpp:303-309 | in every reachable state below 2^64 the test for room on wrapping words is the one of the protocol |
| `RingBuffer.AcceptedFitsExactly` | profiler/src/ProfilerEngine/Datadog.Profiler.Native.Linux/RingBuffer.cpp:84-88 | every reservation that is accepted fits the data area exactly when the buffer was made for at most 2^63 bytes; above that all are accepted |
| `RingBuffer.Ring.Reserve` | profiler/src/ProfilerEngine/Datadog.Profiler.Native.Linux/RingBuffer.cpp:275-321 | a buffer is given exactly when the record fits; then one header is written and the writer moves one stride, otherwise nothing changes |
| `RingBuffer.Ring.Commit` | profiler/src/ProfilerEngine/Datadog.Profiler.Native.Linux/RingBuffer.cpp:323-332 | only the header of that record changes, to a settled one |
| `RingBuffer.Ring.Discard` | profiler/src/ProfilerEngine/Datadog.Profiler.Native.Linux/RingBuffer.cpp:334-344 | only the header of that record changes, to a settled and discarded one |
| `RingBuffer.Ring.OpenReader` | profiler/src/ProfilerEngine/Datadog.Profiler.Native.Linux/RingBuffer.cpp:346-352 | the tail is the writers' position: the session covers every record of the log that is not passed, and both assertions hold |
| `RingBuffer.Ring.AvailableSamples` | profiler/src/ProfilerEngine/Datadog.Profiler.Native.Linux/RingBuffer.cpp:363-367 | the number of records of the session not yet passed |
| `RingBuffer.Ring.GetNext` | profiler/src/ProfilerEngine/Datadog.Profiler.Native.Linux/RingBuffer.cpp:369-403 | returns the payload of the first record of the session that is not discarded if it is committed, nothing otherwise, and leaves the memory as it was |
| `RingBuffer.Ring.DropReader` | profiler/src/ProfilerEngine/Datadog.Profiler.Native.Linux/RingBuffer.cpp:354-361 | releases what the reader has passed |
| `MinHeap.RootIsMin` | integration-test/pyroscope/minheap/minheap.go:22-31 | the first element of a heap is no larger than any other |
| `MinHeap.Up` | integration-test/pyroscope/minheap/minheap.go:22-31 | an array in heap order but for one element and its parent becomes a heap with the same elements |
| `MinHeap.Down` | integration-test/pyroscope/minheap/minheap.go:33-51 | an array in heap order but for one element and its children becomes a heap with the same elements, the rest untouched |
| `MinHeap.Push` | integration-test/pyroscope/minheap/minheap.go:7-11 | the heap gains exactly the new element |
| `MinHeap.Pop` | integration-test/pyroscope/minheap/minheap.go:13-20 | the heap loses exactly its first element |
| `FlameTree.Tree.Insert` | integration-test/pyroscope/model/tree.go:212-226 | a child of that name is found, and then nothing changes, or added at its place in the order; the path, the weights and the order of all other nodes stay |
| `Names.LessExactly` | integration-test/pyroscope/model/tree.go:212-218 | a name is below another exactly if it has the smaller byte where they first differ or is a proper prefix of it |
| `TreeInsert.FindPlace` | integration-test/pyroscope/model/tree.go:212-218 | binary search returns the first sibling whose name is not below the given one |
| `FlameTree.Tree.InsertStack` | integration-test/pyroscope/model/tree.go:32-65 | a positive weight is added at exactly the given path and nowhere else; sibling order, distinct names and the total law stay |
| `FlameTree.Tree.Total` | integration-test/pyroscope/model/tree.go:25-30 | the sum of the totals of the roots |
| `FlameTree.Tree.Merge` | integration-test/pyroscope/model/tree.go:107-141 | the merged tree gives every path the sum of its two weights, and keeps order and total law; a tree merged into itself has every weight twice |
| `TreeMerge.AddNode` | integration-test/pyroscope/model/tree.go:124-137 | visiting a source node adds its weight to the destination of the same path and moves what it is owed to its children |
| `FlameTree.Tree.Fix` | integration-test/pyroscope/model/tree.go:164-206 | ends on every tree with unsorted or repeated siblings; children become strictly sorted by name everywhere, the total law and the weight of every path stay |
| `TreeFix.JoinedWeight` | integration-test/pyroscope/model/tree.go:185-199 | joining two siblings of one name keeps the weight of every path |
| `FlameTree.Tree.FormatNodeNames` | integration-test/pyroscope/model/tree.go:143-161 | every path gets the sum of the old weights of the paths that the renaming maps to it |
| `TreeRename.RenamedWeight` | integration-test/pyroscope/model/tree.go:143-156 | before siblings are joined, renaming alone already gives each path the sum of the weights mapped to it |
| `TreeWalk.IterateStacks` | integration-test/pyroscope/model/tree.go:74-98 | visits every node exactly once and reports those of positive self weight with their reversed path |
| `TreeWalk.StacksExactlyOnce` | integration-test/pyroscope/model/tree.go:74-98 | on an ordered non-negative tree each path of positive weight is reported exactly once, with its weight, and nothing else is |
| `TreeWalk.Size` | integration-test/pyroscope/model/tree.go:265-278 | the number of nodes |
| `TreeMinValue.MinValue` | integration-test/pyroscope/model/tree.go:228-263 | 0 when every node fits; otherwise exactly the maxNodes-th largest total of the whole tree, although subtrees are skipped |
| `TreeMinValue.MinimumIsKth` | integration-test/pyroscope/model/tree.go:242-262 | when the search ends with a full heap, its root is the k-th largest total of all nodes, skipped ones included |
| `TreeMinValue.BelowSkipped` | integration-test/pyroscope/model/tree.go:247-253 | no node below a skipped one has a total above the skipped one's |
| `Varint.VarintRoundTrip` | integration-test/pyroscope/model/tree.go:302-319 | reading an encoded number gives the number back and consumes exactly its bytes |
| `Varint.PutDigits` | integration-test/pyroscope/model/tree.go:302-319 | what is written are the digits of the number in base 128, lowest first, each but the last marked, and no leading zero |
| `Varint.UvarintExactly` | integration-test/pyroscope/model/tree.go:302-319 | on any bytes: too short, too large, or the number its digits in base 128 stand for, and exactly when each |
| `TreeDecode.UnmarshalTree` | integration-test/pyroscope/model/tree.go:284-340 | ends on every input: no tree, an error, a slice out of range, or the decoded tree, exactly as the node-by-node definition says |
| `TreeDecode.AttachNode` | integration-test/pyroscope/model/tree.go:321-329 | the loops compute the definition that the next two rows describe |
| `TreeDecode.AttachFresh` | integration-test/pyroscope/model/tree.go:321-329 | a new name becomes a leaf of that weight at its place among its siblings, counted in every node above it and nowhere else |
| `TreeDecode.AttachRepeated` | integration-test/pyroscope/model/tree.go:321-329 | under a repeated name the node takes the new weight and loses its children: exactly the nodes below it go out of reach, while its old total stays in its own and every total above |
| `TreeAttach.RunAttaches` | integration-test/pyroscope/model/tree.go:300-334 | reading encoded siblings, repeated names or not, is attaching them one after the other under the node that waits for them |
| `TreeTotals.AllTracked` | integration-test/pyroscope/model/tree.go:321-334 | decoded siblings leave one child per name, with the summed total of all trees of that name, which exceeds its self weight and its children's totals by what all but the last of them weigh |
| `TreeTotals.DecodedLawExactly` | integration-test/pyroscope/model/tree.go:284-340 | whatever the names, every node that can be reached has the total of its self weight and its children exactly when, among siblings of one name, all but the last weigh nothing, at every node |
| `TreeTotals.RepeatedNameInput` | integration-test/pyroscope/model/tree.go:321-329 | eleven bytes with two siblings of one name, decoded to a node of self weight 2 and total 3 without children |
| `TreeRoundTrip.DecodeInvertsEncode` | integration-test/pyroscope/model/tree.go:284-340 | decoding the pre-order encoding of any tree with distinct sibling names gives back its names, self weights and shape, with totals equal to the recursive ones |
| `SymbolScan.ExecSpanIsHull` | profiler/src/ProfilerEngine/Datadog.Profiler.Native.Linux/LibrariesInfoCache.cpp:424-440 | the span is missing exactly when no segment is executable, contains every executable segment, and is tight at both ends |
| `SymbolCache.FindExecSpan` | profiler/src/ProfilerEngine/Datadog.Profiler.Native.Linux/LibrariesInfoCache.cpp:424-440 | the loop over the program headers computes that span |
| `SymbolCache.EntryRoundTrip` | profiler/src/ProfilerEngine/Datadog.Profiler.Native.Linux/LibrariesInfoCache.cpp:536-549 | offset and size determine the function's start and end again, wrap-around included |
| `SymbolCache.BuildSymbolCache` | profiler/src/ProfilerEngine/Datadog.Profiler.Native.Linux/LibrariesInfoCache.cpp:402-558 | every usable module has a region that spans its executable segments and whose slice holds, sorted and without repetition, exactly its functions that fit 32 bits, each where the loader put its symbol; the slices overlap nowhere and cover all symbols; the regions are in address order |
| `SymbolCache.Unique` | profiler/src/ProfilerEngine/Datadog.Profiler.Native.Linux/LibrariesInfoCache.cpp:523-527 | sorted functions without repetition, the same ones |
| `SymbolCache.AppendEntries` | profiler/src/ProfilerEngine/Datadog.Profiler.Native.Linux/LibrariesInfoCache.cpp:529-550 | exactly the functions whose offset and size fit 32 bits are kept, in order |
| `SymbolCache.UpperBound` | profiler/src/ProfilerEngine/Datadog.Profiler.Native.Linux/LibrariesInfoCache.cpp:562-564 | the first position whose key is above the value |
| `SymbolScan.NearestIsLast` | profiler/src/ProfilerEngine/Datadog.Profiler.Native.Linux/LibrariesInfoCache.cpp:575-592 | the reference for one module: the last function, by start and then by end, that starts at or before the address |
| `SymbolScan.ScanExactly` | profiler/src/ProfilerEngine/Datadog.Profiler.Native.Linux/LibrariesInfoCache.cpp:424-593 | told by segments and symbols alone, wrap-around included: the scan answers a exactly when the address is in the executable range of a module and a function symbol of it, loaded at a, is the last that starts at or before the address and ends after it, among those that fit 32 bits |
| `SymbolScan.SymbolFound` | profiler/src/ProfilerEngine/Datadog.Profiler.Native.Linux/LibrariesInfoCache.cpp:497-593 | away from the end of the address space: an address within a defined function of a module is answered with the load address plus the symbol's value, unless another symbol starts between or ends later |
| `SymbolCache.RightRegion` | profiler/src/ProfilerEngine/Datadog.Profiler.Native.Linux/LibrariesInfoCache.cpp:560-571 | the region before the upper bound is the one of the module that covers the address, if any does |
| `SymbolCache.FindFunctionStart` | profiler/src/ProfilerEngine/Datadog.Profiler.Native.Linux/LibrariesInfoCache.cpp:560-593 | for modules placed without overlap and every address, two binary searches answer what a scan over all modules and functions answers: the load address plus value of the symbol that holds the address, exactly when there is one |
| `SymbolCache.GetProcName` | profiler/src/ProfilerEngine/Datadog.Profiler.Native.Linux/LibrariesInfoCache.cpp:605-617 | the distance from where the symbol that holds the address was loaded, exactly when there is one |
| `CacheProtocol.StepInv` | profiler/src/ProfilerEngine/Datadog.Profiler.Native.Linux/LibrariesInfoCache.cpp:171-399 | every step of the worker, the starter, notifiers, loaders and readers keeps the invariant |
| `CacheProtocol.NoSetLost` | profiler/src/ProfilerEngine/Datadog.Profiler.Native.Linux/AutoResetEvent.cpp:36-92 | whenever the worker sleeps after a Set, the published libraries are those the loader had at the Set or later, indexed |
| `CacheProtocol.SleepsOnlyUnset` | profiler/src/ProfilerEngine/Datadog.Profiler.Native.Linux/AutoResetEvent.cpp:36-92 | the worker never sleeps on a set event, and a Set wakes it |
| `CacheProtocol.InstanceAfterUpdate` | profiler/src/ProfilerEngine/Datadog.Profiler.Native.Linux/LibrariesInfoCache.cpp:171-207 | the instance is visible only after an update has been completed |
| `CacheProtocol.ReaderSeesOneUpdate` | profiler/src/ProfilerEngine/Datadog.Profiler.Native.Linux/LibrariesInfoCache.cpp:605-646 | a reader holding the lock sees libraries, regions and symbols of one single update |
| `CacheProtocol.ReaderUndisturbed` | profiler/src/ProfilerEngine/Datadog.Profiler.Native.Linux/LibrariesInfoCache.cpp:360-375 | no step of any thread changes the three vectors while a reader holds the lock |
| `CacheProtocol.EarlyNotificationDropped` | profiler/src/ProfilerEngine/Datadog.Profiler.Native.Linux/LibrariesInfoCache.cpp:648-661 | a run in which a library notified before the instance is set stays out of the cache the worker goes to sleep on |
| `CacheService.EarlyNotificationServedExactly` | profiler/src/ProfilerEngine/Datadog.Profiler.Native.Linux/LibrariesInfoCache.cpp:278-300 | over every run in which nothing else wakes the worker: the list current at a notification without an instance, or a later one, is published when the worker goes to sleep exactly if, at the notification, the event was set, the worker was about to read the list, or had read it |
| `CacheService.SetServedSoon` | profiler/src/ProfilerEngine/Datadog.Profiler.Native.Linux/LibrariesInfoCache.cpp:278-375 | after 18 steps of the worker, however the other threads are interleaved, the list current at a Set or a later one is published; until then only a reader holding the lock can keep the worker from its next step |
| `CacheService.StartCompletes` | profiler/src/ProfilerEngine/Datadog.Profiler.Native.Linux/LibrariesInfoCache.cpp:171-302 | a start that does not time out: until the first update is signalled the worker can step, twelve of its steps are enough, and then a list is published and the starting thread can make the cache available |
| `CacheService.AvailableServes` | profiler/src/ProfilerEngine/Datadog.Profiler.Native.Linux/LibrariesInfoCache.cpp:595-660 | once it is available, a lookup gets the lock whenever the worker does not hold it, and a notification sets the event with the current list |
| `MiniUtf.Check8` | shared/src/native-src/miniutf.cpp:84-128 | decoding reads no further than the terminator, and a code point it accepts ends within the string |
| `MiniUtf.Utf8Lawful` | shared/src/native-src/miniutf.cpp:34-128 | UTF-8 encoding and decoding of one code point below 0x110000 are inverse, and decoding a suffix does not depend on what precedes it |
| `MiniUtf.Utf16Lawful` | shared/src/native-src/miniutf.cpp:57-154 | the same for UTF-16 and the scalar values |
| `MiniUtf.Utf8Digits` | shared/src/native-src/miniutf.cpp:34-55 | the bytes of a code point are its digits in base 64, the first marked with how many there are |
| `MiniUtf.Utf16Digits` | shared/src/native-src/miniutf.cpp:57-66 | the two units of a code point above 0xFFFF are the digits of the rest in base 1024, marked as high and low |
| `MiniUtf.RoundTrip16` | shared/src/native-src/miniutf.cpp:234-248 | to_utf16(to_utf8(s)) is s exactly when s is well-formed UTF-16 |
| `MiniUtf.RoundTrip8` | shared/src/native-src/miniutf.cpp:234-248 | to_utf8(to_utf16(s)) is s exactly when s is well-formed UTF-8 without encoded surrogates |
| `MiniUtf.SurrogateLost` | shared/src/native-src/miniutf.cpp:84-128 | every encoded surrogate passes the check and comes back as U+FFFD |
| `MiniUtf.RoundTrip32` | shared/src/native-src/miniutf.cpp:226-255 | to_utf32(to_utf8(u)) is u exactly when every code point is below 0x110000 |
| `MiniUtf.ToUtf8WellFormed` | shared/src/native-src/miniutf.cpp:242-248 | whatever the UTF-16 input, the output is well-formed UTF-8 without surrogates |
| `MiniUtf.WellFormedIffEncoding` | shared/src/native-src/miniutf.cpp:202-217 | a string passes the check exactly when it is the encoding of some code points |
| `MiniUtf.Convert` | shared/src/native-src/miniutf.cpp:234-248 | the conversion loop computes decode then encode and ends with the index at exactly the length |
| `MiniUtf.DecodeOne` | shared/src/native-src/miniutf.cpp:172-196 | one code point and the next position; U+FFFD and the flag exactly where no valid code point starts |
| `MiniUtf.ToUtf32` | shared/src/native-src/miniutf.cpp:226-232 | the decoded code points |
| `MiniUtf.ToUtf16` | shared/src/native-src/miniutf.cpp:234-240 | the UTF-16 encoding of the decoded code points |
| `MiniUtf.ToUtf8` | shared/src/native-src/miniutf.cpp:242-248 | the UTF-8 encoding of the decoded code points |
| `MiniUtf.Utf32ToUtf8` | shared/src/native-src/miniutf.cpp:250-255 | the UTF-8 encoding of the code points |
| `MiniUtf.Utf8Check` | shared/src/native-src/miniutf.cpp:212-214 | true exactly for the encodings of code points below 0x110000 |
| `MiniUtf.Utf16Check` | shared/src/native-src/miniutf.cpp:215-217 | true exactly for the encodings of scalar values |
| `MiniUtf.Utf32Check` | shared/src/native-src/miniutf.cpp:218-220 | true exactly when all code points are below 0x110000 |
| `Normalize.OrderMarks` | shared/src/native-src/miniutf.cpp:339-359 | leaves every starter in place, is a permutation, and gives the canonical order: each run of marks sorted by class, marks of one class and starters in their old order |
| `Normalize.OrderUnique` | shared/src/native-src/miniutf.cpp:339-359 | there is only one such order |
| `Normalize.OrderIdempotent` | shared/src/native-src/miniutf.cpp:339-359 | ordering twice is ordering once |
| `Normalize.ComposeMarks` | shared/src/native-src/miniutf.cpp:361-390 | composition in place never writes past the read position and equals composition out of place |
| `Normalize.BlockingRule` | shared/src/native-src/miniutf.cpp:366-384 | on ordered input, comparing with the last class is exactly the Unicode rule for a blocked mark |
| `Normalize.ComposesExactly` | shared/src/native-src/miniutf.cpp:361-391 | on ordered input each code point is composed with the last starter exactly if the pair has a composite and it is not blocked, and is otherwise kept, as the new starter if of class 0 |
| `StarterRule.LeadingMarkComposes` | shared/src/native-src/miniutf.cpp:361-390 | a leading mark that the tables compose with the next code point is replaced, where composing with starters only keeps both |
| `StarterRule.FirstAsStarterExactly` | shared/src/native-src/miniutf.cpp:361-390 | the pass agrees with composing with starters only, on every input in canonical order, exactly when no mark of the tables composes with a starter or with a mark of its own or a higher class |
| `Normalize.Decomposition` | shared/src/native-src/miniutf.cpp:331-337 | the decompositions of the decoded code points in order; the flag is clear exactly for well-formed input |
| `Normalize.Normalize32` | shared/src/native-src/miniutf.cpp:327-393 | the whole function: canonical order of the decomposition, composed if asked, for every input string |
| `GcEvents.Parser.OnEvent` | profiler/src/ProfilerEngine/Datadog.Profiler.Native/ClrEventsParser.cpp:683-840 | the class follows the step function on every event, from any value of the uninitialized suspension start |
| `GcEvents.Parser.OnGCRestartEEEnd` | profiler/src/ProfilerEngine/Datadog.Profiler.Native/ClrEventsParser.cpp:719-767 | a restart credits the suspension to the current record and ends it if it is young or not concurrent; what it tells, note by note, is `EventTells` |
| `GcEvents.RecordHolds` | profiler/src/ProfilerEngine/Datadog.Profiler.Native/ClrEventsParser.cpp:666-840 | an open record holds the fields of the latest start for it, not ended since, and what was credited to it since |
| `GcEvents.EndTellsOfStart` | profiler/src/ProfilerEngine/Datadog.Profiler.Native/ClrEventsParser.cpp:719-840 | every end notification tells of the latest start of its record, not ended before: number, generation, reason, kind, time since then, exactly the suspensions told of it since, the last sizes and history |
| `GcEvents.StartEndedOnce` | profiler/src/ProfilerEngine/Datadog.Profiler.Native/ClrEventsParser.cpp:719-840 | between two events that end one record comes a new start; counted note by note it is `EndedAtMostOnce` |
| `GcEvents.SuspensionExactly` | profiler/src/ProfilerEngine/Datadog.Profiler.Native/ClrEventsParser.cpp:712-743 | a suspension is told exactly at a restart while a collection is current, with its number and generation and the time since the latest begin not taken by another restart |
| `GcEvents.EndsExactly` | profiler/src/ProfilerEngine/Datadog.Profiler.Native/ClrEventsParser.cpp:719-840 | exactly which events in which states tell an end, and that the record is then reset |
| `GcEvents.BackgroundKept` | profiler/src/ProfilerEngine/Datadog.Profiler.Native/ClrEventsParser.cpp:639-706 | while a foreground collection is open, only a background start changes the background record |
| `GcEvents.BackgroundEndsWithBoth` | profiler/src/ProfilerEngine/Datadog.Profiler.Native/ClrEventsParser.cpp:769-840 | a background collection ends only when both the heap statistics and the heap history were credited to it since its start |
| `GcEvents.ForegroundEndsAtRestart` | profiler/src/ProfilerEngine/Datadog.Profiler.Native/ClrEventsParser.cpp:719-767 | at an event that is about the foreground record, it ends exactly at a restart and if young or not concurrent |
| `GcEvents.ForegroundEndedExactly` | profiler/src/ProfilerEngine/Datadog.Profiler.Native/ClrEventsParser.cpp:639-767 | over whole runs: while a start is the latest for the foreground record, an event ends it exactly if it is the first restart since and the start is young or not concurrent, with a number other than -1 |
| `GcEvents.StuckForeground` | profiler/src/ProfilerEngine/Datadog.Profiler.Native/ClrEventsParser.cpp:639-840 | after a start of generation 2 or more that is not non-concurrent, no end at all is told until the next foreground start |
| `GcEvents.FullForegroundNeverEnds` | profiler/src/ProfilerEngine/Datadog.Profiler.Native/ClrEventsParser.cpp:719-767 | a run with everything a generation-2 foreground collection sends, and no end |
| `GcEvents.OrdersAgree` | profiler/src/ProfilerEngine/Datadog.Profiler.Native/ClrEventsParser.cpp:769-840 | the two orders of arrival, with any neutral events between, tell the same details apart from end time and duration and leave the same state |
| `GcNotices.EventTells` | profiler/src/ProfilerEngine/Datadog.Profiler.Native/ClrEventsParser.cpp:687-840 | a start is told alone, with the fields of its payload; any other event tells at most one suspension and at most one end, the suspension first |
| `GcNotices.EndsSinceStart` | profiler/src/ProfilerEngine/Datadog.Profiler.Native/ClrEventsParser.cpp:687-840 | counting every note of every event, from a start to the next of its record exactly one end is told if the record is closed by then, none otherwise |
| `GcNotices.EndedAtMostOnce` | profiler/src/ProfilerEngine/Datadog.Profiler.Native/ClrEventsParser.cpp:687-840 | no start is ended twice, not even by one event |
| `GcNotices.EndsMatchStarts` | profiler/src/ProfilerEngine/Datadog.Profiler.Native/ClrEventsParser.cpp:687-840 | over a whole run, ends and the open collection together are never more than the starts of a record |
| `GcNotices.YoungEndedAtRestart` | profiler/src/ProfilerEngine/Datadog.Profiler.Native/ClrEventsParser.cpp:719-767 | a start of generation 0 or 1, or of kind 0, is ended by the next restart unless another foreground start comes before, by exactly one note with its number, generation, reason, kind and age |
| `GcNotices.BackgroundEndedExactly` | profiler/src/ProfilerEngine/Datadog.Profiler.Native/ClrEventsParser.cpp:769-840 | a background start is ended by exactly the event with which, for the first time since it, both statistics and history have been credited to it |
| `GcNotices.SuspensionTellsCount` | profiler/src/ProfilerEngine/Datadog.Profiler.Native/ClrEventsParser.cpp:719-743 | the suspension told of a collection carries the count and the generation its start was sent with |
| `GcNotices.CompactsIsBit` | profiler/src/ProfilerEngine/Datadog.Profiler.Native/ClrEventsParser.cpp:817-818 | compacting is the second bit of the mechanisms |
| `EtwMatcher.AttachCallstack` | profiler/src/ProfilerEngine/Datadog.Profiler.Native.Windows/EtwEventsManager.cpp:319-350 | every frame read lies within the payload; the frames are all that the header counts, or none if they do not fit |
| `EtwMatcher.FramesRoundTrip` | profiler/src/ProfilerEngine/Datadog.Profiler.Native.Windows/EtwEventsManager.cpp:319-350 | reading a stack walk gives back exactly the frames it was written with, for every list that fits the 16-bit length |
| `EtwMatcher.TickRoundTrip` | profiler/src/ProfilerEngine/Datadog.Profiler.Native.Windows/EtwEventsManager.cpp:231-270 | reading an allocation tick gives back the kind, the 64-bit amount and the name it was written with, whatever the other fields and what follows |
| `EtwMatcher.Manager.OnEvent` | profiler/src/ProfilerEngine/Datadog.Profiler.Native.Windows/EtwEventsManager.cpp:83-317 | the class follows the per-thread step function: only the record of the event's thread changes; what that tells for what was sent is `AllocationTold` and `ContentionTold` |
| `EtwMatcher.Demultiplex` | profiler/src/ProfilerEngine/Datadog.Profiler.Native.Windows/EtwEventsManager.cpp:83-317 | what is told of a thread, and its record, depend only on that thread's events, however the threads are interleaved |
| `EtwMatcher.RunIsSteps` | profiler/src/ProfilerEngine/Datadog.Profiler.Native.Windows/EtwEventsManager.cpp:83-293 | a thread's run is its events taken one by one |
| `EtwMatcher.AllocationExactly` | profiler/src/ProfilerEngine/Datadog.Profiler.Native.Windows/EtwEventsManager.cpp:93-138 | an allocation is told exactly at a stack walk whose latest relevant event is a well-formed tick, with that tick's fields and the frames of that walk's payload, or 2 for them in replay |
| `EtwMatcher.TickToldOnce` | profiler/src/ProfilerEngine/Datadog.Profiler.Native.Windows/EtwEventsManager.cpp:93-138 | no tick is told twice |
| `EtwMatcher.ContentionExactly` | profiler/src/ProfilerEngine/Datadog.Profiler.Native.Windows/EtwEventsManager.cpp:140-188 | a contention is told exactly at a stop after an open start with a non-zero time, once, with the time from the latest start and the frames of the latest walk after a start, or 1 for them in replay |
| `EtwMatcher.StackIsOwnExactly` | profiler/src/ProfilerEngine/Datadog.Profiler.Native.Windows/EtwEventsManager.cpp:93-108 | the stack told is this contention's exactly when a walk is the next relevant event after its start |
| `EtwMatcher.StackLeftOver` | profiler/src/ProfilerEngine/Datadog.Profiler.Native.Windows/EtwEventsManager.cpp:158-178 | a second contention without its own walk is told with the stack of the first |
| `EtwSent.AllocationToldAsSent` | profiler/src/ProfilerEngine/Datadog.Profiler.Native.Windows/EtwEventsManager.cpp:83-378 | a tick and the walk sent after it are told as one allocation with the kind, name, amount and time of the tick and exactly the frames sent; 2 stands for them in replay |
| `EtwSent.ContentionToldAsSent` | profiler/src/ProfilerEngine/Datadog.Profiler.Native.Windows/EtwEventsManager.cpp:83-378 | a contention that starts, is followed by a walk and stops is told from start to stop with exactly the frames sent, whatever comes before the stop; 1 stands for them in replay |
| `EtwSent.AllocationTold` | profiler/src/ProfilerEngine/Datadog.Profiler.Native.Windows/EtwEventsManager.cpp:83-378 | the same in a run of all threads' events, in any interleaving |
| `EtwSent.ContentionTold` | profiler/src/ProfilerEngine/Datadog.Profiler.Native.Windows/EtwEventsManager.cpp:83-378 | the same in a run of all threads' events, in any interleaving |
| `Unwinder.ValidFpWithin` | profiler/src/ProfilerEngine/Datadog.Profiler.Native.Linux/HybridUnwinder.cpp:22-40 | an accepted frame pointer is aligned, above the base and above the previous one, and its record is within the stack exactly if it is not among the last 16 addresses |
| `Unwinder.WrappedFpAccepted` | profiler/src/ProfilerEngine/Datadog.Profiler.Native.Linux/HybridUnwinder.cpp:31-33 | a frame pointer there is accepted whatever the end of the stack |
| `Unwinder.WalkReads` | profiler/src/ProfilerEngine/Datadog.Profiler.Native.Linux/HybridUnwinder.cpp:197-253 | for every memory content each record read is aligned, above the base and above the one before; within the stack exactly if not among the last 16 addresses |
| `Unwinder.WalkWithin` | profiler/src/ProfilerEngine/Datadog.Profiler.Native.Linux/HybridUnwinder.cpp:197-253 | if neither the first frame pointer nor any link in the stack is there, every record visited is within the stack; that nothing but these records is read is `WalkReadsStack` |
| `Unwinder.WalkChain` | profiler/src/ProfilerEngine/Datadog.Profiler.Native.Linux/HybridUnwinder.cpp:246-252 | the frame pointers visited are the chain of links from the first one |
| `Unwinder.WalkFrames` | profiler/src/ProfilerEngine/Datadog.Profiler.Native.Linux/HybridUnwinder.cpp:200-244 | the callstack gets, in order and as far as there is room, the managed return addresses of the frames visited and the fake address where that is not known, and nothing else; by the words of the stack it is `WalkFindsFrames` |
| `Unwinder.WalkBounded` | profiler/src/ProfilerEngine/Datadog.Profiler.Native.Linux/HybridUnwinder.cpp:197-258 | the callstack keeps what it held and never exceeds its capacity; the last event is a finish |
| `Unwinder.WalkRuns` | profiler/src/ProfilerEngine/Datadog.Profiler.Native.Linux/HybridUnwinder.cpp:224-244 | never more than 9 frames in a row that are not managed |
| `Unwinder.WalkCapped` | profiler/src/ProfilerEngine/Datadog.Profiler.Native.Linux/HybridUnwinder.cpp:212-238 | a smaller buffer receives exactly the beginning of what a larger one would |
| `Unwinder.Callstack.Add` | profiler/src/ProfilerEngine/Datadog.Profiler.Native/Callstack.cpp:57-64 | appends if there is room, otherwise changes nothing |
| `Unwinder.Recorder.Record` | profiler/src/ProfilerEngine/Datadog.Profiler.Native.Linux/UnwindingRecorder.h:113-177 | counts every event and stores the first 256 of them |
| `Unwinder.NativeBounded` | profiler/src/ProfilerEngine/Datadog.Profiler.Native.Linux/HybridUnwinder.cpp:52-147 | for every cursor the native walk ends within the capacity; it goes on only at managed code, and otherwise its last event is a finish |
| `Unwinder.UnwindNativeFrames` | profiler/src/ProfilerEngine/Datadog.Profiler.Native.Linux/HybridUnwinder.cpp:52-147 | the loop with callstack and optional recorder computes the native walk |
| `Unwinder.UnwindManagedFrames` | profiler/src/ProfilerEngine/Datadog.Profiler.Native.Linux/HybridUnwinder.cpp:149-259 | the loop with callstack and optional recorder computes the managed walk, for every memory content; the frames that finds are `WalkFindsFrames` |
| `Unwinder.Unwind` | profiler/src/ProfilerEngine/Datadog.Profiler.Native.Linux/HybridUnwinder.cpp:261-330 | returned size, callstack and trace are those of the two phases in order, on every error path |
| `Unwinder.UnwindEndsWithFinish` | profiler/src/ProfilerEngine/Datadog.Profiler.Native.Linux/HybridUnwinder.cpp:261-330 | whatever libunwind and the memory do, the callstack stays within its capacity and the last event is a finish |
| `UnwinderFrames.WalkReadsRecords` | profiler/src/ProfilerEngine/Datadog.Profiler.Native.Linux/HybridUnwinder.cpp:197-253 | two memories that agree on the two words of every record visited give the same walk: nothing else is read |
| `UnwinderFrames.WalkReadsStack` | profiler/src/ProfilerEngine/Datadog.Profiler.Native.Linux/HybridUnwinder.cpp:197-253 | if no link leads to the last 16 addresses, memories that agree inside the stack give the same walk |
| `UnwinderFrames.WalkFindsFrames` | profiler/src/ProfilerEngine/Datadog.Profiler.Native.Linux/HybridUnwinder.cpp:197-253 | over records laid out in the stack, each with the address of the next and then its return address, the callstack gains exactly their managed return addresses and 0 for unknown ones, in order, as far as there is room: the walk neither stops early nor goes past the outermost record |
| `UnwinderFrames.WalkTellsFrames` | profiler/src/ProfilerEngine/Datadog.Profiler.Native.Linux/HybridUnwinder.cpp:197-258 | the trace tells each of these frames with its return address and record, then the size of the callstack and how the walk ended |
| `UnwinderFrames.NativeAddresses` | profiler/src/ProfilerEngine/Datadog.Profiler.Native.Linux/HybridUnwinder.cpp:52-147 | the native walk puts the cursor's addresses on the callstack, in order, and what the frame it ends at adds, as far as there is room |
| `UnwinderFrames.UnwoundFrames` | profiler/src/ProfilerEngine/Datadog.Profiler.Native.Linux/HybridUnwinder.cpp:261-330 | a call on native frames, a managed frame and the records from its frame pointer on leaves exactly their addresses, innermost first, as far as there is room |
| `UnwinderTrace.WalkFinishes` | profiler/src/ProfilerEngine/Datadog.Profiler.Native.Linux/HybridUnwinder.cpp:197-258 | the walk along the frame pointers adds two finishes exactly if one more slot would have been filled, one otherwise |
| `UnwinderTrace.UnwoundFinishes` | profiler/src/ProfilerEngine/Datadog.Profiler.Native.Linux/HybridUnwinder.cpp:261-330 | over every path of a call the trace holds two finishes exactly if the chain of frame pointers is reached and has a frame more than fits, one otherwise |
| `UnwinderTrace.TwoFinishes` | profiler/src/ProfilerEngine/Datadog.Profiler.Native.Linux/HybridUnwinder.cpp:212-258 | a stack and a capacity with two |
| `UnwinderTrace.NativeLength` | profiler/src/ProfilerEngine/Datadog.Profiler.Native.Linux/HybridUnwinder.cpp:52-147 | two events for each native frame visited, and what the last turn adds |
| `UnwinderTrace.UnwoundLength` | profiler/src/ProfilerEngine/Datadog.Profiler.Native.Linux/HybridUnwinder.cpp:261-330 | the length of the whole trace in terms of the frames walked |
| `UnwinderTrace.StoredIsKept` | profiler/src/ProfilerEngine/Datadog.Profiler.Native.Linux/UnwindingRecorder.h:113-177 | what the recorder stores is the first 256 events of the trace |
| `UnwinderTrace.KeptEndsWithFinish` | profiler/src/ProfilerEngine/Datadog.Profiler.Native.Linux/UnwindingRecorder.h:113-177 | the stored events end with a finish exactly if the call does not get to the two phases, the frames walked leave at most 256 events, or they leave 257 and the callstack fills on the chain |
| `UnwinderTrace.DeepStackLosesFinish` | profiler/src/ProfilerEngine/Datadog.Profiler.Native.Linux/UnwindingRecorder.h:113-191 | on a native stack that does not end, the finish is stored exactly if the callstack holds fewer than 127 frames |
| `SampleCounts.AcceptedExactly` | profiler/src/ProfilerEngine/Datadog.Profiler.Native/AdaptiveSampler.cpp:16-28 | on a fresh window with a constant limit, in every interleaving of any number of threads, exactly min(completed, max(limit - 1, 0)) calls return true |
| `SampleCounts.AcceptedAtMost` | profiler/src/ProfilerEngine/Datadog.Profiler.Native/AdaptiveSampler.cpp:16-33 | with unconditional samples mixed in, still at most limit - 1 calls return true, and the counter is never negative |
| `AdaptiveSampler.EveryRunBounded` | profiler/src/ProfilerEngine/Datadog.Profiler.Native/AdaptiveSampler.cpp:134-182 | over every run of rolls the averages lie between 0 and the largest count, the budget in [0, samplesPerWindow * budgetLookback], the probability in [0, 1] |
| `AdaptiveSampler.SampleAverageIsWeighted` | profiler/src/ProfilerEngine/Datadog.Profiler.Native/AdaptiveSampler.cpp:134-138 | after any run of rolls the sample average is the exponentially weighted sum of the sampled counts of all windows |
| `AdaptiveSampler.TotalAverageIsWeighted` | profiler/src/ProfilerEngine/Datadog.Profiler.Native/AdaptiveSampler.cpp:166-173 | after any run of rolls the average of the tests is the first count that is not zero and all later ones, exponentially weighted; zero if there is none |
| `AdaptiveSampler.TotalAverageUnweighted` | profiler/src/ProfilerEngine/Datadog.Profiler.Native/AdaptiveSampler.cpp:166-169 | without a weight it is the count of the last window |
| `AdaptiveSampler.BudgetIsRest` | profiler/src/ProfilerEngine/Datadog.Profiler.Native/AdaptiveSampler.cpp:134-141 | the budget is, to the nearest integer, what the windows of the lookback may still sample |
| `AdaptiveSampler.BudgetFalls` | profiler/src/ProfilerEngine/Datadog.Profiler.Native/AdaptiveSampler.cpp:134-141 | a higher sample average never gives a larger budget, and an average of zero gives the whole samplesPerWindow * budgetLookback |
| `AdaptiveSampler.ProbabilityMeetsBudget` | profiler/src/ProfilerEngine/Datadog.Profiler.Native/AdaptiveSampler.cpp:175-182 | the probability times the average number of tests is the budget, or all tests if they are fewer |
| `AdaptiveSampler.NegativeSamples` | profiler/src/ProfilerEngine/Datadog.Profiler.Native/AdaptiveSampler.cpp:78-78 | with a negative number of samples per window one accepted test makes the sample average negative |
| `AdaptiveSampler.Sampler.constructor` | profiler/src/ProfilerEngine/Datadog.Profiler.Native/AdaptiveSampler.cpp:51-93 | lookbacks below 1 count as 1; both slots start from zero |
| `AdaptiveSampler.Sampler.Sample` | profiler/src/ProfilerEngine/Datadog.Profiler.Native/AdaptiveSampler.cpp:95-106 | true exactly below the probability and while the window holds fewer than budget - 1 samples; the counter is clamped to the budget |
| `AdaptiveSampler.Sampler.Keep` | profiler/src/ProfilerEngine/Datadog.Profiler.Native/AdaptiveSampler.cpp:108-114 | counts a test and a sample |
| `AdaptiveSampler.Sampler.Drop` | profiler/src/ProfilerEngine/Datadog.Profiler.Native/AdaptiveSampler.cpp:116-121 | counts a test only |
| `AdaptiveSampler.Sampler.RollWindow` | profiler/src/ProfilerEngine/Datadog.Profiler.Native/AdaptiveSampler.cpp:143-184 | without a call under way, the window's counts go into the averages, and the next window starts from zero |
| `SamplerRoll.TestsClearExactly` | profiler/src/ProfilerEngine/Datadog.Profiler.Native/AdaptiveSampler.cpp:95-184 | in every interleaving the tests of the closed window are gone after the roll exactly when no call of it was still to count its test |
| `SamplerRoll.SlotClearExactly` | profiler/src/ProfilerEngine/Datadog.Profiler.Native/AdaptiveSampler.cpp:95-184 | in every interleaving both counts are gone exactly when every call of the window under way has counted its test, keeps nothing, and has or will get a limit of 0, whatever count the roll may read |
| `SamplerRoll.SlotClearIffFree` | profiler/src/ProfilerEngine/Datadog.Profiler.Native/AdaptiveSampler.cpp:95-184 | with a budget, a probability and limits other than 0 that is exactly when no call of the window is under way |
| `SamplerRoll.RollAtomicExactly` | profiler/src/ProfilerEngine/Datadog.Profiler.Native/AdaptiveSampler.cpp:95-184 | the roll has the effect of one step in every interleaving exactly when, besides, no call can change the count it is to read |
| `SamplerRoll.RollAtomic` | profiler/src/ProfilerEngine/Datadog.Profiler.Native/AdaptiveSampler.cpp:95-184 | a roll that finds no call under way in its window has that effect |
| `SamplerRoll.SlotNotClear` | profiler/src/ProfilerEngine/Datadog.Profiler.Native/AdaptiveSampler.cpp:95-184 | a run with a call under way, after which the next window starts from one |
| `SamplerProtocol.TestsConserved` | profiler/src/ProfilerEngine/Datadog.Profiler.Native/AdaptiveSampler.cpp:11-14 | in every interleaving each counted test is read by one roll, or waits for one, or came between the reading and the clearing of its slot |
| `SamplerProtocol.SamplesConserved` | profiler/src/ProfilerEngine/Datadog.Profiler.Native/AdaptiveSampler.cpp:16-33 | the same of the samples: the accepted ones, one each, with what calls that met the limit changed, are read by one roll, or wait, or came too late |
| `SamplerProtocol.EveryInterleavingBounded` | profiler/src/ProfilerEngine/Datadog.Profiler.Native/AdaptiveSampler.cpp:95-184 | with a non-negative number of samples per window, in every interleaving, averages and counts are not negative, the probability is in [0, 1] and no limit exceeds the initial budget |
| `SamplerProtocol.NeverNegativeExactly` | profiler/src/ProfilerEngine/Datadog.Profiler.Native/AdaptiveSampler.cpp:78-184 | the sample average is non-negative in every run of calls and rolls exactly when the number of samples per window is |

## Left out

- FlameTree.Tree.Merge: merging into an empty tree shares the source's nodes in the original; the model copies the value, so later changes to one tree seen through the other are not captured.
- FlameTree.Tree.InsertStack: 64-bit overflow of weights and totals is not modelled.
- FlameTree.Tree.Fix: `sort.Slice` is a stand-in method with the library's contract (some sorted arrangement).
- TreeWalk.StacksExactlyOnce: for ordered trees with non-negative weights, as InsertStack and Merge build them.
- TreeDecode.UnmarshalTree: allocation failures for a huge child count are not modelled.
- SymbolCache.BuildSymbolCache: ELF files are not parsed; a module comes with its segments and symbols, and `std::sort` is a stand-in with its contract.
- SymbolCache.FindFunctionStart: nothing is claimed for overlapping modules, which the loader does not produce.
- CacheProtocol.NoSetLost: nothing is claimed during shutdown, where the vectors are cleared without the lock.
- RingBuffer.Create: the file and its mappings are a yes or no of the operating system; nothing is claimed about reading and writing with a sample size that does not fit, or without a data area.
- RingBuffer.Ring.Reserve: the spin lock and its timeout are steps of `RingProtocol`, not of the class.
- Normalize.Normalize32: the Unicode tables and the Hangul formulas are parameters; lowercasing is not modelled.
- GcEvents.Parser.OnEvent: payload parsing, logging and 64-bit overflow of durations are not modelled.
- EtwMatcher.Manager.OnEvent: other GC events go to the collection parser, which is `GcEvents`; the type name stays in UTF-16 units.
- Unwinder.Unwind: libunwind is an arbitrary cursor; the registers copied into the trace are part of it.
- AdaptiveSampler.Sampler.RollWindow: floating-point rounding is not modelled, nor the callback; the class is for calls that do not overlap, `SamplerProtocol` and `SamplerRoll` for those that do.
- Hardware memory ordering.
- Cache shutdown, footprint tracking, the unwinding recorder factory, activity helpers.
- Signal handlers, suspension and resumption, timers, configuration, exporters, managed code and interop: mostly foreign calls, or easy.
