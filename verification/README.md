# A verified model of the gpgpu-intel launch machinery

gpgpu-intel is a user-space driver that runs OpenCL kernels on Gen9 GPUs. This project models the part of it
that a kernel launch goes through and proves what the launch relies on:

* **Local IDs** (`LocalIds`, `PackedIds`, `WorkGroup`, `SimdOneIds`). The generator never divides; it carries
  mixed-radix digits, four 16-bit IDs to a 64-bit group. The per-lane algorithm is proved to compute quotients and
  remainders for every group size. The packed algorithm is modelled on its real 64-bit arithmetic, in place on the
  heap array, and is proved to compute the same carry in the radix X * 0x0001000100010001; when X is a multiple of 4
  every iteration of its three loops is the per-lane one in each of the four lanes. From that follows exactly when the
  generated IDs give every work-item of a group once: X is a multiple of 4, or the group is a single row with
  X = 3 mod 4.
* **What the hardware loads** (`PayloadStride`, `Serving`, `OneChannel`, `TwoChannels`, `ThreadPayload`). Each thread is
  loaded with the bytes that the launch's own descriptor and walker give it, and finds in them one row for every ID its
  kernel reads; the generator always writes three rows a thread. Dispatched lanes and work-items are matched one to one
  so that every lane is loaded with the IDs, among those its kernel reads, of its own item. Whatever the cross-thread
  data, that is possible if and only if the group needs at most 64 threads and either the kernel reads no ID, or the
  cross-thread data is whole registers, fewer than 256 of them, and the rows suit the kernel
  (`ThreadPayload.EachItemOnceIff`). They suit it, for more than one lane,
  * with all three IDs read, or in a single thread: when the sizes suit the generator and each ID read has as many values
    as the ID whose row stands in its place, as always when x alone, x and y, or all three are read;
  * with one ID read in several threads: when X is a multiple of 4, there are X values of that ID, and the x, y and z rows
    that are loaded hold every value equally often (`OneChannel.OneChannelIff`), as for x in a group of 4 by 8 with two
    threads of 16 lanes;
  * with two IDs read in several threads: never (`TwoChannels.TwoChannelsNever`).

  With one lane they suit a kernel when the sizes of the IDs it reads are those of z, y and x, in this order.
* **Launch heaps** (`SurfaceHeap`, `KernelConstants`, `IndirectHeap`, `DynamicHeap`, `BufferObjects`). Launches append to 64 KiB
  buffers and compute pointers backwards from the end offset; these are proved to lead to the places written.
* **Command streams** (`Commands`, `LaunchStream`, `StreamWriter`, `Runs`). Commands are dwords laid out field by
  field. A command streamer that knows nothing of the driver fetches, classifies and executes them. `Runs` is the
  machine of builds, submissions, GPU retirements (complete, or cut short by a hang) and waits, and its theorems hold
  of every run.
* **What the GPU does** (`GpuState`, `LaunchState`, `Wiring`, `NdRange`). A second reading of the executed commands takes them
  apart by bit positions and keeps the state they set up: pipeline, registers, preemption buffer, front end, base
  addresses, system routine, descriptors. Whatever state the GPU was in before, a launch makes one walk, and `Wiring` says
  of that walk, of the state it finds and of its descriptor, in the launch's own terms, exactly when each field is what
  the launch needs. `NdRange` puts the groups together: every work-item of the whole range runs once.
* **The context object** (`Launches`, `Dispatcher`, `Placement`, `Session`). `CommandDispatcher` is the driver's class with
  its fields; each of its methods is a step of the machine in `Runs`, so launching inherits the theorems. `Placement`
  follows every launch's data in the heaps until its batch retires, which may be after later launches were built, and
  reads it back where the walk looks for it.
* **The call an application makes** (`Api`). `ExecuteKernel` takes the kernel object as token decoding and argument
  setting left it and the sizes asked for, validates them, and makes the launch they describe; what the arguments and
  sizes were is what the kernel finds in the heap and the walker in its dimensions.
* **Patch tokens and arguments** (`PatchTokens`, `TokenLayouts`, `KernelArgs`). The decoder is proved against the records of
  `driver/kernel.h` with their fields by name, from their bytes to the argument table, and arguments are followed from
  their records to the bytes the kernel reads.
* **The soft-pin heap and canonical addresses**
  (`HeapAllocator`, `DriverUtils`), **work sizes** (`WorkSize`) and **topology** (`Topology`).
* `Bits`, `Words` and `Options` hold the bit, byte and option vocabulary.

Answers of the operating system are parameters: whether an allocation or a submission succeeds, what a query
returns, whether a wait returns without error, and how many commands the GPU executes before it stops. Machine
arithmetic is written out (`% TWO_32`, `% TWO_64`) wherever the code's width matters.

Where the code does less than its surroundings suggest, the code is modelled and the exact condition is proved:
local IDs (`WorkGroup.EachItemOnceIff`, `SimdOneIds.EachItemOnceIff`, `ThreadPayload.EachItemOnceIff`), the bytes
reserved for them (`IndirectHeap.StoresInsideReservedIff`), the binding-table pointer (`SurfaceHeap.TablePointerIff`), the walker's
thread counter and group counts (`Wiring.GroupThreadsIff`, `Wiring.GroupsIff`), the cross-thread read length
(`DynamicHeap.DescriptorCounts`), shared local memory (`Wiring.DescriptorReadsBack`), surface sizes (`KernelArgs.SpanIff`),
heap requests (`HeapAllocator.SoundIffNoWrap`), and validation (`WorkSize.AcceptedSizes`,
`WorkSize.WrappedProductAccepted`).

## Model

| member | source | states |
|---|---|---|
| DriverUtils.AlignUpRoundsUp | driver/utils.h:64-67 | the mask expression rounds up to the least multiple of a power of two, and yields zero exactly when the sum leaves 64 bits |
| DriverUtils.CeilIsLeastMultiple | driver/utils.h:64-67 | the rounded value is a multiple, is less than one alignment away, and is below every other multiple that is large enough |
| DriverUtils.CanonizeSignExtends | driver/utils.h:86-88 | the two shifts copy bit 47 into bits 48 to 63 of every 48-bit address |
| DriverUtils.CanonicalRoundTrip | driver/utils.h:86-92 | decanonize undoes canonize and canonize is idempotent on every 48-bit address |
| DriverUtils.PrevPowerOfTwo | driver/utils.h:94-101 | the five or-shift steps yield a power of two r with r <= v < 2r, and zero for zero |
| DriverUtils.LargestPowerOfTwo | driver/utils.h:94-101 | such an r is above every other power of two not exceeding v |
| LocalIds.NormaliseDivides | driver/commandDispatcherGen9.cpp:472-503 | repeated conditional subtraction terminates (x strictly decreases, a y wrap implies an x wrap) and ends in the digits n mod X, n/X mod Y, n/(X*Y) |
| LocalIds.OneCarryIsEnough | driver/commandDispatcherGen9.cpp:505-524 | the sum of two digit triples in range needs one conditional subtraction per digit |
| LocalIds.LaneHoldsItsWorkItem | driver/commandDispatcherGen9.cpp:505-524 | for all X, Y >= 1, before thread t is stored a lane's IDs are the digits of start + t * step |
| LocalIds.DigitsAreUnique | driver/commandDispatcherGen9.cpp:472-503 | in-range digits of a number are its quotients and remainders and nothing else |
| PackedIds.CarryVecIsCarry | driver/commandDispatcherGen9.cpp:472-524 | the packed compare, blend, subtract and add on a vector is, group by group, one scalar carry with radix X * 0x0001000100010001 |
| PackedIds.CarryIsLanewise | driver/commandDispatcherGen9.cpp:472-524 | the packed carry of a group is a carry in each 16-bit lane: of a uniform group for every X, of a run of four consecutive x when X and its first x are multiples of 4; the group keeps its shape |
| PackedIds.WideNormalise | driver/commandDispatcherGen9.cpp:472-503 | so the packed loop on a uniform group, or on such a run, ends in the group of the lanes' own normal forms |
| PackedIds.AddIsLanewise | driver/commandDispatcherGen9.cpp:505-524 | adding the step, which is the same in all lanes, adds in each 16-bit lane |
| PackedIds.StepIsUniform | driver/commandDispatcherGen9.cpp:472-483 | the step that the first loop leaves is the uniform copy of the per-lane digits of the SIMD size, with its x a multiple of 4 when X is |
| PackedIds.GroupIsLanes | driver/commandDispatcherGen9.cpp:485-524 | when X is a multiple of 4 every group of every thread is four consecutive x of one row, from a multiple of 4, as the per-lane algorithm has it |
| PackedIds.IterationIsLanewise | driver/commandDispatcherGen9.cpp:472-503 | one iteration of the packed loop is one iteration of the per-lane loop in all four lanes of every group, with the same compare results in all four |
| PackedIds.ThreadStepIsLanewise | driver/commandDispatcherGen9.cpp:505-524 | moving on to the next thread is the per-lane step in all four lanes |
| PackedIds.StoredIsPerLane | driver/commandDispatcherGen9.cpp:451-527 | when X is a multiple of 4 every lane of every thread finds in memory what the per-lane algorithm holds there |
| PackedIds.NormaliseVec | driver/commandDispatcherGen9.cpp:472-503 | the vector loops terminate and leave every group with the scalar normal form of what it held |
| PackedIds.StepDigits | driver/commandDispatcherGen9.cpp:472-483 | the first loop leaves every group with the digits of the SIMD size |
| PackedIds.StartDigits | driver/commandDispatcherGen9.cpp:487-503 | the second loop leaves the groups of a pass with the digits of their lanes' numbers in thread 0 |
| PackedIds.GroupDividesRamp | driver/commandDispatcherGen9.cpp:472-524 | whatever X is, a group holds the digits of its ramp of four consecutive numbers in the packed radix |
| PackedIds.SlotsApart | driver/commandDispatcherGen9.cpp:453-463 | the slots of different threads, channels or lanes do not overlap |
| PackedIds.SlotOutside | driver/commandDispatcherGen9.cpp:505-510 | a slot that one store does not name lies outside the bytes it writes |
| PackedIds.GeneratePass | driver/commandDispatcherGen9.cpp:485-526 | one pass fills its lanes of every thread and no other slot |
| PackedIds.GenerateLocalIdsSimd | driver/commandDispatcherGen9.cpp:451-527 | for SIMD 8, 16 and 32, every lane of every thread reads back its closed-form ID, and nothing outside the footprint changes |
| WorkGroup.ThreadsCoverGroup | driver/commandDispatcherGen9.cpp:404-409 | all threads but the last are full and the last takes exactly what is left |
| WorkGroup.EnabledIffInGroup | driver/commandDispatcherGen9.cpp:628-638 | the execution mask enables exactly the lanes whose number is below the group size |
| WorkGroup.LaneRunsItsItem | driver/commandDispatcherGen9.cpp:451-527 | for the sizes the generator can handle every enabled lane holds its own work-item's ID |
| WorkGroup.SomeLaneLeavesGroup | driver/commandDispatcherGen9.cpp:472-524 | for all other sizes some enabled lane holds an x outside the group |
| WorkGroup.EachItemOnceIff | driver/commandDispatcherGen9.cpp:404-420 | enabled lanes and work-items correspond one to one if and only if X is a multiple of 4, or Y = Z = 1 and X = 3 mod 4 |
| SimdOneIds.GenerateLocalIdsForSimdOne | driver/commandDispatcherGen9.cpp:530-542 | thread n holds the digits of n with dimension 2 fastest, one register per thread, and nothing else is written |
| SimdOneIds.EachItemOnceIff | driver/commandDispatcherGen9.cpp:530-542 | these IDs run every work-item once if and only if X = Z |
| Serving.DigitsServeIff | driver/commandDispatcherGen9.cpp:422-432 | when lanes are loaded with their numbers' digits, as many as IDs are read, lanes and items can be matched if and only if the sizes of the IDs read are those of the digits |
| Serving.FibreSize | driver/commandDispatcherGen9.cpp:404-432 | in a group that is served, each value of the first ID is loaded by exactly as many lanes as there are items with it |
| PayloadStride.OwnRowsIff | driver/commandDispatcherGen9.cpp:422-432 | with three rows a thread, or a single thread, a group is served if and only if the generator suits its sizes and the IDs read are as many of each kind as those in the rows in their places |
| OneChannel.ServedIsBalanced | driver/commandDispatcherGen9.cpp:422-427 | one ID read in several threads, X a multiple of 4: a group that is served has x, y and z rows that each hold all X values equally often |
| OneChannel.BalancedIsServed | driver/commandDispatcherGen9.cpp:422-427 | and a group with such rows is served |
| OneChannel.UnsuitedIsNotServed | driver/commandDispatcherGen9.cpp:422-427 | for other X it never is |
| OneChannel.OneChannelIff | driver/commandDispatcherGen9.cpp:422-427 | so exactly when X is a multiple of 4 and the rows loaded are balanced |
| TwoChannels.TwoChannelsNever | driver/commandDispatcherGen9.cpp:422-427 | two IDs read in several threads: no group up to 1024 items and 64 threads is served, whichever two, whatever the SIMD size |
| ThreadPayload.WordsInsideThread | driver/commandDispatcherGen9.cpp:566-569 | the words that a lane reads lie inside the bytes its thread is loaded with |
| ThreadPayload.RunsOnceIffServed | driver/commandDispatcherGen9.cpp:625-638 | up to 64 threads, every item runs once if and only if the group is served by the words its lanes are loaded with |
| ThreadPayload.ManyThreads | driver/commandDispatcherGen9.cpp:628-628 | a group of more than 64 threads never runs every item once |
| ThreadPayload.NoChannelIff | driver/commandDispatcherGen9.cpp:422-427 | a kernel that reads no ID runs every item once if and only if there are at most 64 threads |
| ThreadPayload.OneLaneIff | driver/commandDispatcherGen9.cpp:530-542 | for one lane and up to 64 threads every item runs once if and only if the sizes of the IDs read are those of z, y and x in this order; X = Z when all three are |
| ThreadPayload.WholeRegistersIff | driver/commandDispatcherGen9.cpp:404-432 | with a cross-thread length the descriptor can hold and at least one ID read, every item runs once if and only if there are at most 64 threads and the rows suit the kernel |
| ThreadPayload.PartRegistersFail | driver/commandDispatcherGen9.cpp:565-565 | when an ID is read, a shorter programmed length makes some cross-thread data be taken for IDs, and then items are missed or run twice |
| ThreadPayload.CommandsCarryProgram | driver/commandDispatcherGen9.cpp:561-640 | data address, thread count, execution mask and both lengths, read from the dwords of base addresses, descriptor and walker |
| ThreadPayload.EachItemOnceIff | driver/commandDispatcherGen9.cpp:404-640 | for every cross-thread data, the lanes that the commands dispatch run every work-item once, each with the IDs its kernel reads, if and only if the threads are at most 64 and no ID is read, or the data is whole registers below 8 KiB and the rows suit the kernel |
| ThreadPayload.AppendedLaunchRunsOnce | driver/commandDispatcherGen9.cpp:404-640 | under that condition a heap the launch has been appended to, with its own data, runs every item once |
| ThreadPayload.LaterBytesDoNotMatter | driver/commandDispatcherGen9.cpp:422-431 | whatever is appended behind what a launch reserves, its threads are loaded with the same IDs |
| ThreadPayload.OneChannelTwoThreads | driver/commandDispatcherGen9.cpp:422-431 | x read alone in a row of 16 with SIMD 8: all lanes of the second thread are loaded with x = 0 |
| ThreadPayload.OneChannelFits | driver/commandDispatcherGen9.cpp:422-431 | x read alone in a group of 4 by 8 with SIMD 16: two threads, and every item runs once |
| ThreadPayload.OnlyYOneThread | driver/commandDispatcherGen9.cpp:422-431 | y read alone in a group of 4 by 2 with SIMD 8: the only thread is loaded with the x row |
| HeapAllocator.Allocator.Init | driver/device.cpp:335-376 | each refusal with its code and condition, nothing changed; and otherwise the initial bounds |
| HeapAllocator.NewHeap | driver/device.cpp:358-373 | a new heap is the 4 GiB from 2^47 + 4 GiB on without its first MiB and its last 64 KiB |
| HeapAllocator.Allocator.AllocateHeapMemory | driver/device.cpp:378-392 | a request moves the bounds and answers with canonical addresses as the pure request does |
| HeapAllocator.SoundIffNoWrap | driver/device.cpp:378-392 | a request is served soundly (a page-aligned range inside the free space, sizes conserved; or an error and nothing changed) exactly when its rounded end stays below 2^64, and then succeeds exactly when it fits |
| HeapAllocator.RangesAreDisjoint | driver/device.cpp:360-392 | over every sequence of requests the ranges are page-aligned, inside the heap, and pairwise disjoint |
| HeapAllocator.RangesAreHeapAddresses | driver/device.cpp:360-392 | what the heap hands out is a page address, and the whole range lies between the first MiB and the last 64 KiB of the heap |
| HeapAllocator.CanonicalDifference | driver/device.cpp:379-385 | for every heap address the canonical difference to the base equals the plain one and fits 32 bits |
| HeapAllocator.KernelStartRebuilds | driver/commandDispatcherGen9.cpp:554-556 | instruction base plus the two kernel-start fields give the exact kernel address |
| HeapAllocator.SipRebuilds | driver/commandDispatcherGen9.cpp:806-808 | instruction base plus the system-instruction pointer give the exact address of the system routine |
| HeapAllocator.IndirectDataRebuilds | driver/commandDispatcherGen9.cpp:621-624 | indirect base plus the walker's 26-bit field give the exact address of any 64-aligned place in a heap buffer |
| WorkSize.WorkSizes.constructor | driver/commandDispatcherGen9.cpp:19-28 | a new context's sizes are all one and its limit is that of its device |
| WorkSize.WorkSizes.SetMaxWorkGroupSize | driver/commandDispatcherGen9.cpp:76-86 | the limit is the largest power of two not above eight lanes per subslice thread, capped at 1024 |
| WorkSize.WorkSizes.ValidateWorkGroups | driver/commandDispatcherGen9.cpp:245-294 | each error code with its condition, success exactly for acceptable sizes, and all size fields after every outcome, also where the loop stopped half way |
| WorkSize.AcceptedSizes | driver/commandDispatcherGen9.cpp:262-293 | accepted three-dimensional sizes are the required ones if any are, they are within the limit exactly when their product does not wrap 64 bits, and then numWorkGroups * local = global in every dimension |
| WorkSize.WrappedProductAccepted | driver/commandDispatcherGen9.cpp:277-287 | a concrete size whose product wraps to zero is accepted under any limit |
| WorkSize.GroupFitsSubSlice | driver/commandDispatcherGen9.cpp:404-409 | a group within the limit needs no more hardware threads than one subslice has |
| Topology.CountEus | driver/device.cpp:308-318 | the innermost loop counts the enabled units of one subslice exactly |
| Topology.CountSubSlices | driver/device.cpp:298-319 | the middle loop counts enabled subslices and the units nested under them |
| Topology.CountTopology | driver/device.cpp:287-320 | the totals are the cardinalities of the sets of enabled slices, subslices and units under enabled parents, and the per-parent counts are the lengths of the leading runs of enabled bits |
| Topology.EnabledIffListed | driver/device.cpp:289-310 | a slice, subslice or unit is read as enabled if and only if the answer lists it, one bit each, masks a stride apart |
| PatchTokens.WalkVisitsEncodedTokens | driver/kernel.cpp:611-617 | walking the encoding of any token list visits exactly those tokens in order, except for a final bare header |
| PatchTokens.Walk1VisitsLeadingTokens | driver/kernel.cpp:601-609 | the program-level walk visits the longest leading run of tokens 41 and 42, under the same rule |
| PatchTokens.WalkedBytesAreAnEncoding | driver/kernel.cpp:611-617 | conversely, bytes the walk accepts are the encoding of what it visited, plus at most a header |
| PatchTokens.TableIsSlots | driver/kernel.cpp:384-430 | after any list without mixed arguments the table has one slot more than the largest argument, pointer and local slots hold their last token and immediate slots their elements in order |
| PatchTokens.EmptyIffUnnamed | driver/kernel.cpp:478-563 | a slot is empty if and only if no token named its argument |
| PatchTokens.LocalWorkSizes | driver/kernel.cpp:497-563 | per dimension the first local-work-size token goes to the first slot and the last later one to the second |
| PatchTokens.RecordedIsLast | driver/kernel.cpp:384-475 | of the kinds that are only recorded the last token counts |
| PatchTokens.FlagsIff | driver/kernel.cpp:449-471 | each reason for which a kernel is refused is raised if and only if one of its tokens is there |
| TokenLayouts.FieldsReadBack | driver/kernel.h:98-234 | every field of a record, laid out in its order behind the header, is what the decoder reads at its place |
| TokenLayouts.TokenNames | driver/kernel.h:197-234 | the decoder takes argument number, offset, data size, source offset, surface place and pointer place from the fields of these names, in 16 bits |
| TokenLayouts.SlotsAreRead | driver/kernel.cpp:478-524 | after any records that do not mix values and pointers, every slot is what the records of its argument say, field by name: the pieces of a value in order, or the last pointer or local argument |
| TokenLayouts.WorkSizesAreRead | driver/kernel.cpp:537-556 | for global and enqueued sizes, group counts and offsets the last record of each dimension counts, the dimension taken from the source offset |
| TokenLayouts.LocalSizesAreRead | driver/kernel.cpp:527-536 | for local sizes the first record of each dimension counts, and the last of the others |
| TokenLayouts.DimensionsAreRead | driver/kernel.cpp:557-559 | the number of dimensions goes where the last record that asks for it says |
| TokenLayouts.LastIsKept | driver/kernel.cpp:386-412 | of binding table, thread payload, execution environment and data parameter stream the last record is kept |
| TokenLayouts.EnvironmentIsKept | driver/kernel.h:127-159 | required sizes, SIMD size and barriers are the fields of these names |
| TokenLayouts.PayloadIsKept | driver/kernel.h:175-191 | the flags of the local IDs are the fields of these names |
| TokenLayouts.BytesAreRead | driver/kernel.cpp:611-617 | walking the bytes of records decodes these records |
| KernelArgs.ScatterPlacesElement | driver/kernel.cpp:728-745 | with disjoint elements each element's bytes are the argument's bytes from its source offset, up to its size or the bytes left |
| KernelArgs.ScatterKeepsTheRest | driver/kernel.cpp:728-745 | every byte outside the elements is unchanged |
| KernelArgs.SurfaceRoundTrip | driver/kernel.cpp:700-712 | the surface state gives back the buffer's address, and its size if and only if that is 1 byte to 4 GiB; otherwise the size modulo 4 GiB, with 4 GiB for zero |
| KernelArgs.StateIsRawBuffer | driver/commandsGen9.h:636-758 | read by its bits the state is a raw buffer with alignments of four, the driver's caching index and CPU coherence, and nothing else is set |
| KernelArgs.SpanIff | driver/kernel.cpp:788-790 | the surface of a buffer spans its size, rounded up to dwords, if and only if that is 1 byte to 4 GiB |
| KernelArgs.PointerReadsBack | driver/kernel.cpp:782-785 | the eight bytes delivered for a pointer are read, as low and high dword, as the buffer's address |
| KernelArgs.OneRunBetweenResets | driver/kernel.cpp:714-726 | without a reset in between an argument's handler runs once if the argument exists, is open and is set, and never otherwise |
| KernelArgs.ResetOpensEverything | driver/kernel.cpp:801-807 | in every interleaving a reset opens exactly the existing arguments, and handler runs add up over the stretches between resets |
| KernelArgs.Kernel.DecodePatchtokensList2 | driver/kernel.cpp:611-617 | the cursor loop leaves the fields as decoding the visited tokens in order does |
| KernelArgs.Kernel.DecodePatchtokensList1 | driver/kernel.cpp:601-609 | the same for the program-level loop |
| KernelArgs.Kernel.SetArgument | driver/kernel.cpp:714-726 | refused with nothing changed unless the argument exists and is open; otherwise code, data and surface states are those of its handler and the flag is set whatever the handler returns; the table keeps everything but flags |
| KernelArgs.Kernel.SetArgImmediate | driver/kernel.cpp:728-745 | the cross-thread data becomes the scatter of the value; only size zero is refused |
| KernelArgs.Kernel.SetArgBuffer | driver/kernel.cpp:774-799 | an unauthentic buffer is refused with nothing changed; otherwise a 64-bit read of the argument's place finds the buffer's address, zero for none, and the surface heap holds a raw buffer at that address which spans the buffer if and only if it has 1 byte to 4 GiB; all other bytes stay |
| KernelArgs.Kernel.SetArgLocal | driver/kernel.cpp:748-771 | the offsets of later local arguments and the shared-memory total as the code computes them, with its signed-byte start; the total grows by enough for what ends there |
| KernelArgs.LocalsArePlaced | driver/kernel.cpp:755-766 | each later local argument whose place no still later one takes reads back the running offset after its own alignment |
| KernelArgs.NextLocalStartsBehind | driver/kernel.cpp:748-766 | the local argument behind one that is set starts where that ends, rounded up to its own alignment, as long as the one that is set starts below 128 |
| KernelArgs.PlacingEnds | driver/kernel.cpp:755-768 | what is added to the total is the offset of the last local argument |
| KernelArgs.LocalOffsetIsAligned | driver/kernel.cpp:762-762 | that offset is aligned as the argument asks |
| KernelArgs.NextLocal | driver/kernel.cpp:755-766 | of two local arguments with none between, the second one's offset is the first one's rounded up to its own alignment, whatever the first one's size |
| KernelArgs.NextLocalCoincidesIff | driver/kernel.cpp:755-766 | so it is less than one alignment behind, and the same offset if and only if that is aligned already |
| KernelArgs.SignedStartIff | driver/kernel.cpp:751-752 | the start read through a signed byte is the stored 32-bit offset if and only if that is below 128 or among the last 128 |
| KernelArgs.HandlersIgnoreFlags | driver/kernel.cpp:714-799 | a handler does the same on a table that differs in flags only |
| KernelArgs.SetOneMore | driver/kernel.cpp:714-726 | so the calls of a sequence compose: each does to the data what one more call of the sequence on the first table does |
| KernelArgs.ArgumentStays | driver/kernel.cpp:714-799 | over every sequence of calls, a byte of an argument's value or of its buffer's address is where it belongs in the end unless a later call may write there |
| KernelArgs.StateStays | driver/kernel.cpp:774-799 | over every sequence of calls, the surface state that a call writes for its pointer is there in the end unless a later call may write there |
| KernelArgs.StateDescribes | driver/kernel.cpp:700-712 | that state is a raw buffer at the buffer's address, or at zero, and spans the buffer if and only if it has 1 byte to 4 GiB |
| KernelArgs.Kernel.ResetArguments | driver/kernel.cpp:801-807 | every existing argument is open again and nothing else changes |
| Commands.GfxHeader | driver/commandsGen9.h:322-387 | the fields of a packed command header are read back as written |
| Commands.StepCommand | driver/commandsGen9.h:769-826 | the streamer executes a command held in memory and continues behind it, at a jump's target, or stops |
| LaunchStream.TaskHeaders | driver/commandDispatcherGen9.cpp:606-672 | each of the seven task commands parses as itself, only the third walks, and only the last ends |
| LaunchStream.ReceiverHeaders | driver/commandDispatcherGen9.cpp:684-824 | each of the thirteen receiver commands parses as itself, none writes or walks, and the last jumps |
| LaunchStream.TagWrite | driver/commandDispatcherGen9.cpp:654-666 | the post-sync command writes the launch's tag to the tag address, rebuilt from its split fields |
| LaunchStream.JumpGoesToTask | driver/commandDispatcherGen9.cpp:816-822 | the 46-bit address field of the jump leads to the task's first command |
| LaunchStream.LaunchExecutes | driver/commandDispatcherGen9.cpp:606-824 | from the receiver's first command the streamer executes the launch's twenty commands and stops |
| LaunchStream.PartialLaunch | driver/commandDispatcherGen9.cpp:606-824 | stopped after n commands it has executed the first n of them |
| LaunchStream.LaunchEffects | driver/commandDispatcherGen9.cpp:654-666 | a cut-short launch has walked once from the sixteenth command on and written its tag from the nineteenth on |
| GpuState.Selects | driver/commandDispatcherGen9.cpp:686-697 | executing the pipeline selection leaves the GPU with the general-purpose pipeline and the sampler clock gated, and nothing else changed |
| GpuState.Loads | driver/commandDispatcherGen9.cpp:699-716 | a register load changes this register, to this value, and no other |
| GpuState.Preempts | driver/commandDispatcherGen9.cpp:719-721 | the preemption buffer is read back from its page address |
| GpuState.SetsFrontEnd | driver/commandDispatcherGen9.cpp:731-747 | thread limit, URB entries, per-thread scratch size and scratch pointer, read back from their bits |
| GpuState.SetsBases | driver/commandDispatcherGen9.cpp:762-802 | every page address programmed as a base is read back exactly, with its caching index, and sizes in pages |
| GpuState.SetsSystemRoutine | driver/commandDispatcherGen9.cpp:804-808 | the system routine's place is read back |
| GpuState.LoadsDescriptors | driver/commandDispatcherGen9.cpp:611-614 | place and length of the descriptors are read back |
| GpuState.WalkerSays | driver/commandDispatcherGen9.cpp:617-647 | a walk starts at group zero and goes up to the counts in 32 bits; threads, lanes, both masks, descriptor index, length and place of the data, from the dwords |
| LaunchState.ReceiverSetsUp | driver/commandDispatcherGen9.cpp:678-827 | whatever state the GPU was in, the thirteen commands set up all of it that a walk finds, and walk nothing |
| LaunchState.LaunchWalksIn | driver/commandDispatcherGen9.cpp:600-827 | the first n executed commands of a launch make one walk if and only if they reach the sixteenth, in the state the launch's own commands set up |
| LaunchState.FencesOfLaunch | driver/commandDispatcherGen9.cpp:650-813 | which pipe control stalls, flushes and invalidates what, that the tag is written after the data has left the cache, with an interrupt, and that no other flag is set |
| LaunchState.OrderOfLaunch | driver/commandDispatcherGen9.cpp:606-813 | the front end is set up behind the first flush, bases and system routine behind the second, the thread policy behind a stall, and the walk behind its descriptors |
| LaunchState.LaunchIsClean | driver/commandsGen9.h:11-548 | every bit of a launch's commands outside the fields that are read is clear |
| BufferObjects.BufferObject.PtrOffset | driver/commandDispatcher.h:66-73 | the old position is handed out and both offsets advance |
| BufferObjects.BufferObject.Append | driver/commandDispatcher.h:66-73 | a command lands behind everything appended so far, which stays as it was |
| BufferObjects.BufferObject.AlignToCacheLine | driver/commandDispatcherGen9.cpp:830-841 | zeros up to the next multiple of 64, both offsets moved alike |
| BufferObjects.PaddingDoesNothing | driver/commandDispatcherGen9.cpp:830-841 | the padding is no-op commands |
| BufferObjects.TaskHolds | driver/commandDispatcher.h:66-73 | appended commands are what the streamer fetches at their address, whatever is appended later |
| BufferObjects.ReceiverHolds | driver/commandDispatcher.h:66-73 | the same for the receiver stream |
| StreamWriter.WriteTask | driver/commandDispatcherGen9.cpp:600-675 | the stream grows by exactly the task's seven commands and padding, 192 bytes |
| StreamWriter.WriteReceiver | driver/commandDispatcherGen9.cpp:678-827 | the stream grows by exactly the receiver's thirteen commands and padding, 320 bytes |
| SurfaceHeap.AppendSurfaces | driver/commandDispatcherGen9.cpp:356-377 | the heap is patched with the relocated blob at the old offset, and the offset moves past what is reserved |
| SurfaceHeap.CopyAndRebase | driver/commandDispatcherGen9.cpp:359-373 | the copy and the table loop leave the relocated blob in the heap and change nothing else |
| SurfaceHeap.RelocatedEntry | driver/commandDispatcherGen9.cpp:368-373 | entry i of the relocated table is the rebased entry i |
| SurfaceHeap.RelocatedElsewhere | driver/commandDispatcherGen9.cpp:359-373 | bytes outside the table are copied unchanged |
| SurfaceHeap.RelocationKeepsMeaning | driver/commandDispatcherGen9.cpp:356-377 | following relocated entry i from the heap base reaches a byte-for-byte copy of the surface state that source entry i named |
| SurfaceHeap.EntryLeadsToState | driver/commandDispatcherGen9.cpp:356-377 | in a heap that holds the relocated blob, following an entry from the heap's base reaches a copy of the state it stood for |
| SurfaceHeap.TablePointerIff | driver/commandDispatcherGen9.cpp:558-560 | with the table behind its n surface states the programmed table pointer is right if and only if n is 1 to 16; the heap stays 64-aligned |
| SurfaceHeap.TablePointerAnywhere | driver/commandDispatcherGen9.cpp:558-560 | for any table offset the programmed pointer is right if and only if the table starts one cache line before the end of the reservation |
| IndirectHeap.AppendIndirect | driver/commandDispatcherGen9.cpp:400-432 | the cross-thread data and the local IDs are in the heap, earlier bytes are unchanged, and the offset is the next cache line behind the reservation |
| IndirectHeap.WriteIds | driver/commandDispatcherGen9.cpp:414-420 | the generator chosen by SIMD size leaves that launch's IDs |
| IndirectHeap.HeapIdsAreRightIff | driver/commandDispatcherGen9.cpp:404-432 | read at the generator's own stride, the IDs in the heap give the enabled lanes every work-item once if and only if X is a multiple of 4, or Y = Z = 1 and X = 3 mod 4 |
| IndirectHeap.StoresInsideReservedIff | driver/commandDispatcherGen9.cpp:422-431 | the ID stores stay inside the reserved bytes if and only if all three channels are present |
| IndirectHeap.IndirectStartIsStart | driver/commandDispatcherGen9.cpp:620-624 | the address computed backwards from the end is where the cross-thread data was copied |
| IndirectHeap.HardwareFindsCrossThreadData | driver/commandDispatcherGen9.cpp:620-624 | base and bitfield rebuild the GPU address of this launch's cross-thread data |
| IndirectHeap.RegionsAreDisjoint | driver/commandDispatcherGen9.cpp:411-432 | over every run of launches each starts 64-aligned and reserves bytes below those of all later ones |
| KernelConstants.PatchKernelConstant | driver/commandDispatcherGen9.cpp:437-443 | the low 32 bits of the constant are written at the kernel's offset, and nothing when the kernel has none |
| KernelConstants.PatchWorkSizes | driver/commandDispatcherGen9.cpp:390-399 | the loop leaves the data as the sixteen writes of the launch in order do |
| KernelConstants.KernelReadsItsSizes | driver/commandDispatcherGen9.cpp:390-399 | with separate places the kernel reads its local, enqueued and global sizes and group counts in every dimension, and the dimension count, modulo 2^32 |
| KernelConstants.OtherBytesStay | driver/commandDispatcherGen9.cpp:437-443 | bytes outside the kernel's places are unchanged |
| DynamicHeap.SharedLocalMemoryCovers | driver/commandDispatcherGen9.cpp:577-587 | the encoded size is the least encoding that covers the request |
| DynamicHeap.DescriptorLeadsToKernelAndTable | driver/commandDispatcherGen9.cpp:554-560 | the descriptor's fields give back the kernel's distance from the base, the table's place and the capped entry count |
| DynamicHeap.DescriptorCounts | driver/commandDispatcherGen9.cpp:561-571 | the thread count is read back if and only if it is below 1024, the cross-thread length if and only if it is whole registers, fewer than 256, and never as more; shared-memory code, barrier flag and per-thread length as meant |
| DynamicHeap.LocalMemoryOf | driver/commandDispatcherGen9.cpp:577-587 | the memory set aside covers the request if and only if that is at most 64 KiB, and is 1 KiB or less than twice the request |
| DynamicHeap.OtherBitsClear | driver/commandDispatcherGen9.cpp:552-571 | denormals are left to the kernel and no bit outside the fields is set |
| DynamicHeap.AppendDescriptor | driver/commandDispatcherGen9.cpp:551-572 | the descriptor is behind the earlier ones, and the backwards computation from the new end finds it |
| Runs.LaunchSizes | driver/commandDispatcherGen9.cpp:606-841 | from cache-line boundaries a launch takes 192 bytes of the task stream and 320 of the receiver stream |
| Runs.EveryRunKeeps | driver/commandDispatcherGen9.cpp:600-940 | every run keeps: submissions intact and apart in both streams, tags growing, and the tag in memory that of the last launch that reached its tag write |
| Runs.RetireRunsOwnCommands | driver/commandDispatcherGen9.cpp:866-870 | whatever has been built since, executing a submission executes its own commands |
| Runs.EveryRetireIsOwnLaunch | driver/commandDispatcherGen9.cpp:866-876 | in every run, from the batch start the GPU executes exactly that launch's twenty commands, one walker among them, writes that launch's tag and stops |
| Runs.OwnBytesOnly | driver/commandDispatcherGen9.cpp:606-841 | executed commands lie in the launch's own bytes, and those of different launches do not overlap |
| Runs.FinishIffExecuted | driver/commandDispatcherGen9.cpp:921-940 | in every run, with failures and hangs, finishing succeeds if and only if the wait did and the GPU retired all submissions, the last one at least up to its tag write |
| Runs.SuccessMeansWalked | driver/commandDispatcherGen9.cpp:921-940 | success means the current launch's own commands were executed with exactly one walker, its own; an earlier launch's tag never suffices |
| Runs.RoomForLaunches | driver/commandDispatcherGen9.cpp:678-841 | in every run the receiver stream has room for another launch if and only if fewer than 204 reached it |
| Dispatcher.Obtain | driver/commandDispatcherGen9.cpp:349-354 | a buffer is allocated only if there is none, and an existing one is kept |
| Dispatcher.AddSurfaces | driver/commandDispatcherGen9.cpp:347-378 | the relocated blob is at the old offset and everything before it is unchanged |
| Dispatcher.AddIndirect | driver/commandDispatcherGen9.cpp:400-432 | the data, sizes patched in, and the IDs are at the old offset and everything before them is unchanged |
| Dispatcher.AddDescriptor | driver/commandDispatcherGen9.cpp:545-574 | the descriptor is at the old offset and everything before it is unchanged |
| Dispatcher.CommandDispatcher.CreateSurfaceStateHeap | driver/commandDispatcherGen9.cpp:347-378 | on success the surfaces are at the old end, or behind the empty first state of a new heap; the streams are untouched; fails only if the allocation does; the heaps keep all they held |
| Dispatcher.CommandDispatcher.CreateIndirectObjectHeap | driver/commandDispatcherGen9.cpp:381-435 | on success the kernel's own data has been patched with the sizes, data and IDs are at the old end and the fields describe this launch; fails only if the allocation does; the heaps keep all they held |
| Dispatcher.CommandDispatcher.CreateDynamicStateHeap | driver/commandDispatcherGen9.cpp:545-574 | on success the eight dwords at the old end, read from the heap, are a descriptor of this launch: its kernel, its threads exactly below 1024, barriers if and only if it uses them, local memory enough exactly up to 64 KiB; fails only if the allocation does; the heaps keep all they held |
| Dispatcher.CommandDispatcher.CreateCommandStreamTask | driver/commandDispatcherGen9.cpp:600-675 | the task stream gains commands that name the forward starts of the launch's descriptor and data, and the next tag; their walker walks every group of the launch and no other exactly if the counts fit 32 bits or there is none; on failure tag and stream stay |
| Dispatcher.CommandDispatcher.Walker | driver/commandDispatcherGen9.cpp:617-647 | the walker's fields, computed backwards from the heap's end, are those of a walk from where the data starts |
| Dispatcher.CommandDispatcher.CreateCommandStreamReceiver | driver/commandDispatcherGen9.cpp:678-827 | the receiver stream gains commands after which, whatever state the GPU was in, all that this launch needs is set up: L3 configuration by its local memory, front end, bases, preemption buffer, system routine; then a jump to the task just written |
| Dispatcher.CommandDispatcher.ConstructBufferObjects | driver/commandDispatcherGen9.cpp:297-317 | for every pattern of allocation failures: the code returned, whether the tag and the task stream advanced, whether the receiver stream did, and on success what the heaps hold; the heaps keep all they held in every case |
| Dispatcher.CommandDispatcher.PopulateAndSubmitExecBuffer | driver/commandDispatcherGen9.cpp:844-886 | what is pinned is exactly the arguments' buffers, the launch's and the context's, the receiver stream last; the batch runs from this launch's receiver commands to the end of the stream; the kernel's arguments are open afterwards whether or not the submission was accepted |
| Dispatcher.CommandDispatcher.FinishExecution | driver/commandDispatcherGen9.cpp:921-940 | success exactly for a wait without error and a tag equal to the driver's |
| Placement.BuiltIsPlaced | driver/commandDispatcherGen9.cpp:297-317 | after construction the heaps end with the launch's surfaces, data and descriptor, and hold its IDs |
| Placement.PlacedDataStands | driver/commandDispatcherGen9.cpp:347-435 | whatever has been appended since and whatever state the GPU was in, the launch's walk is its own and finds its surfaces (as far as bytes are reserved), data and descriptor in the heaps, and IDs with which its items run once if they ever could, all over the range if the groups can be counted |
| Session.Context.NextRetireFindsItsData | driver/commandDispatcherGen9.cpp:844-940 | in every session, also after failed waits, the commands of the batch that retires next make one walk, its own launch's, and it finds all of that in the heaps |
| Session.Context.Retire | driver/commandDispatcherGen9.cpp:866-876 | executing the oldest pending batch from the bytes in the buffers is the retire step of the run |
| Session.Context.Construct | driver/commandDispatcherGen9.cpp:297-317 | construction on the real buffers is the build step of the run |
| Session.Context.Submit | driver/commandDispatcherGen9.cpp:844-886 | submission is the submit step of the run and queues exactly the launch just built |
| Session.Context.Finish | driver/commandDispatcherGen9.cpp:921-940 | waiting is the finish step of the run, with the same verdict |
| Session.Context.WaitAndFinish | driver/commandDispatcherGen9.cpp:921-940 | success if and only if the wait did and all pending batches retired, the last up to its tag write, from its own commands |
| Session.Context.LaunchKernel | driver/gpgpu_api.cpp:139-149 | a launch succeeds if and only if all allocations, the submission and the wait did and the GPU got at least to its tag write; then the last batch's commands make one walk, this launch's, that finds it in the heaps; arguments are open afterwards if construction succeeded and untouched otherwise |
| Api.ExecuteKernel | driver/gpgpu_api.cpp:127-151 | a request is refused, changing nothing but size fields, if and only if validation fails; otherwise the launch made of its sizes and the kernel's tokens, data and surfaces succeeds exactly as above, with flags, heaps and walk after every outcome |
| Api.AcceptedGroupFitsSubSlice | driver/commandDispatcherGen9.cpp:76-86 | on a context, whose limit comes from its device, an accepted three-dimensional request without wrap needs no more hardware threads than one subslice has |
| Api.ValidatedGroupFits | driver/commandDispatcherGen9.cpp:262-289 | a validated three-dimensional request makes a group within the limit if and only if the product of its sizes does not wrap |
| Api.MetadataIff | driver/kernel.cpp:569-577 | the metadata a launch needs is there if and only if the four records are, and the required group size is that of the environment |
| Api.LaunchIsRead | driver/gpgpu_api.cpp:127-151 | the launch of a kernel has, each by its name, the fields of its records, the sizes in their dimensions, the settings, and every work size where the records of its kind and dimension ask for it |
| Api.ArgumentReachesHeap | driver/commandDispatcherGen9.cpp:389-402 | whatever was set in between, a byte of an argument stands in the indirect heap at its place behind the launch's start, unless a later call or a work size takes the place |
| Api.ValueReachesKernel | driver/kernel.cpp:728-745 | from record to heap: byte j of a value with SourceOffset <= j < SourceOffset + DataSize stands behind the launch's start at Offset + j - SourceOffset |
| Api.PointerReachesKernel | driver/kernel.cpp:782-785 | from record to heap: a 64-bit read behind the launch's start at DataParamOffset finds the address of the argument's buffer, zero without one |
| Api.StateIsHeld | driver/kernel.cpp:774-799 | the surface states of a kernel hold, at the place its last record gives, what setting the pointer argument wrote |
| Api.SurfaceReachesKernel | driver/commandDispatcherGen9.cpp:356-377 | from record to heap: following the binding-table entry that stood for the argument's state reaches, in the heap, a raw buffer at the argument's buffer that spans it if and only if it has 1 byte to 4 GiB |
| Api.LaunchForIsAsked | driver/gpgpu_api.cpp:127-151 | the launch of an accepted request has the kernel's own data, surfaces and local memory, the request's sizes in the dimensions it has and an earlier launch's in the others |
| Api.SizesReachKernel | driver/commandDispatcherGen9.cpp:389-402 | with separate places the kernel's reads behind the launch's start in the heap find the launch's sizes in every dimension, modulo 2^32 |
| Api.RequestedSizes | driver/commandDispatcherGen9.cpp:268-292 | the launch has the request's sizes in the dimensions it has, and a walk of it walks all groups they make and no other if and only if the groups can be counted; the number of dimensions handed to the kernel is zero |
| Api.RequestedRange | driver/commandDispatcherGen9.cpp:262-293 | the range of the launch that an accepted three-dimensional request makes is the global size asked for |
| Api.SuccessRunsEachItemOnce | driver/gpgpu_api.cpp:127-151 | after success the executed commands make one walk, and the descriptor it names and the IDs its threads load, read from the heaps, make every work-item of a group run once whenever the exact hardware condition holds, and every work-item of the whole range if the groups can be counted |
| NdRange.GroupsMakeRange | driver/commandDispatcherGen9.cpp:629-647 | when every group is walked and runs its items once, every global work-item is run by exactly one lane of one group, loaded with its local IDs |
| NdRange.RangeIff | driver/commandDispatcherGen9.cpp:629-647 | and only then, if there is a group at all |
| Wiring.GroupThreadsIff | driver/commandDispatcherGen9.cpp:628-628 | the six-bit thread counter holds the group's thread count if and only if it is 1 to 64, and otherwise what is left above a multiple of 64 |
| Wiring.GroupsIff | driver/commandDispatcherGen9.cpp:629-631 | the walk covers the launch's groups, all and no other, if and only if the counts fit 32 bits or there is no group |
| Wiring.WalkReadsBack | driver/commandDispatcherGen9.cpp:617-647 | groups, threads, lanes, masks and data length of the walker are the launch's, each under its exact condition |
| Wiring.LocalMemoryUse | driver/commandDispatcherGen9.cpp:561-563 | a launch uses shared local memory if and only if its kernel asks for 1 byte to 4 GiB less 1 KiB; rounded up to kilobytes it is enough |
| Wiring.SetUpIsMeant | driver/commandDispatcherGen9.cpp:686-808 | bit 0 of the L3 register is set if and only if the launch uses local memory; preemption buffer, thread limit exactly for 1 to 65536, scratch size exactly below 16, scratch memory exactly below 2^48 and a page, each base, the system routine |
| Wiring.ReceiverIsMeant | driver/commandDispatcherGen9.cpp:678-827 | that is the state after executing the launch's receiver commands, whatever it was before |
| Wiring.DataIsFound | driver/commandDispatcherGen9.cpp:611-625 | bases and walker lead to the GPU address of the launch's cross-thread data, bases and descriptor load to its descriptor |
| Wiring.WalkOfLaunch | driver/commandDispatcherGen9.cpp:600-827 | so the walk of a launch's commands is that launch's, in a state that is that launch's |
| Wiring.DescriptorReadsBack | driver/commandDispatcherGen9.cpp:545-574 | the descriptor is the launch's: kernel address, threads, barriers, local memory, data lengths and bindings, each under its exact condition |
| Wiring.PinnedIsReached | driver/commandDispatcherGen9.cpp:844-876 | what is pinned is exactly what walk and descriptor lead the GPU to, what arguments and constants point to, the streams and the tag, and the system routine if walks are preempted midway |
| Wiring.TableIsFoundIff | driver/commandDispatcherGen9.cpp:558-560 | the table place read from the descriptor is where the table was written if and only if there are 1 to 16 entries |

## Left out

- Foreign calls: ioctls, memory pinning, compiler libraries and files appear only as outcomes passed in.
- Constant hardware tables (driver/hwinfo.cpp, driver/devices_base.h) and the unfinished Xe2 dispatcher.
- createScratchAllocation: only its failure and the resulting scratch address and size code are inputs of a launch; its growth rule is not modelled.
- Streams and heaps past 64 KiB: the driver does not check the bound, and launches beyond it are outside the model (`Runs.Enabled`, `CommandDispatcher.Room`); `Runs.RoomForLaunches` says how many fit the receiver stream.
- ThreadPayload.LoadsOwn: a kernel finds the IDs it reads one behind the other, x before y before z, as the driver reserves one row for each; for one-lane kernels, which get one register however many they read, the same order of words is taken.
- Api.Sound: each of the three channel flags of the thread payload is zero or one; the driver adds them up unchecked.
- HeapAllocator.RangesAreDisjoint: no request of the sequence rounds past 2^64, where a single request is already served unsoundly (`HeapAllocator.SoundIffNoWrap`).
- HeapAllocator.RangesAreHeapAddresses: the same.
- SurfaceHeap.AppendSurfaces: a blob longer than 68 bytes an entry reaches past what is reserved for it, and the next launch overwrites the rest; `Placement.PlacedDataStands` speaks of the reserved bytes.
- Api.ExecuteKernel: a null context or kernel, refused before anything happens, has no counterpart; a request that validation accepts must make a group of at most 1024, which `Api.ValidatedGroupFits` shows of three dimensions whose product does not wrap, and a launch that fits the buffers.
- Dispatcher.CommandDispatcher.PopulateAndSubmitExecBuffer: which buffers are pinned and that the receiver stream is last, not the order of the others.
- WorkSize.AcceptedSizes: all three dimensions are given; for a smaller work_dim the unused dimensions keep what an earlier launch left in them.
- The driver's `workDim` field is never assigned and stays zero: `Api.SizesFor`.
- Runs.EveryRunKeeps: tags are proved distinct for the launches that fit the 64 KiB task stream, far fewer than 2^32, so the tag never wraps in a modelled run.
- PatchTokens.TableIsSlots: lists in which one argument is named by an immediate and by another kind of token are excluded; there the driver casts one descriptor type to the other, and the model's decoder leaves the slot alone.
- TokenLayouts.SlotsAreRead: the same lists are excluded.
- Api.ValueReachesKernel: no two pieces of the value go to the same place, where the one copied last would stay, and the record's fields fit the 16 bits that the driver keeps of them.
- Api.PointerReachesKernel: a place other than zero, by which the driver means that there is none, and below 2^16.
- Api.SurfaceReachesKernel: the state lies inside the kernel's blob and outside its table (`SurfaceHeap.StateInBlob`).
- Wiring.PinnedIsReached: the scratch memory lies below 2^48, as memory of a process does.
- PatchTokens.WalkVisitsEncodedTokens: token sizes below eight or past the end of the data have no walk in the model, since the driver then loops or reads outside its input.
- Fields a token is too short to hold are read as zero.
- The header of the device binary and the constant surface, whose address is patched as a pointer argument's is: the model starts from the tokens, the cross-thread data and the surface states.
- NdRange.GroupsMakeRange: group IDs are those the walk counts and the offset of the range is zero, as the driver never patches one in.
- Launches.Places: every buffer is at a page address, as the driver's own allocation makes it.
- KernelArgs.Kernel.SetArgLocal: all later table slots must exist, since the driver dereferences an empty one; later sizes are not added up by the code, so no disjointness is claimed (`KernelArgs.NextLocalCoincidesIff`).
- KernelArgs.Kernel.SetArgument: the argument value must be of the kind its handler casts it to.
- PackedIds.GenerateLocalIdsSimd: the vector blend is modelled on compare results, which are all ones or all zeros per 64-bit group.
- Wiring.TableIsFoundIff: the table is placed right behind one surface state per entry; `SurfaceHeap.TablePointerAnywhere` covers other offsets.
- SurfaceHeap.RelocationKeepsMeaning: the surface state named must lie inside the blob and outside the table.
- Commands: the streamer knows the commands the driver emits; other opcodes fault.
