# YadraKoVa: verified model

YadraKoVa is a CUDA tensor engine. Around the driver calls it has several algorithms that are not
obvious: a tiled, double-buffered matrix-product kernel, a stream-ordered memory pool with graph capture
on top, strided tensor views with a kernel that materialises them, a warp softmax, int8 quantisation, and
a telemetry pipeline. This project models them in Dafny and proves what they are for.

Arithmetic is exact: the matrix product works over an abstract exact product of integers, softmax and
quantisation over the reals. CUDA primitives have small abstract meanings: an asynchronous copy lands at
any time between its issue and the end of its issuer's wait; a barrier lets a thread through once all
threads of the block have arrived; `mma_sync` is an exact 16x16x16 multiply-accumulate of a converged warp;
a stream is a FIFO queue, an event fires when its record is executed, and a wait is executed only after
its event has fired. `dafny verify dfyconfig.toml` checks the whole project.

## How it is built

- **Matrix product.** `MatmulSpec` has the triple loop (`Dot`) and the zero-padded sum the kernel really
  accumulates. `MatmulBlock` is one thread block as a state machine: 256 threads with their own program
  counters and registers, both shared-memory stages, the overlapping output tile, the fragments, and copies
  in flight. Any enabled thread, landing copy or converged warp may step next. `MatmulPipeline` has the
  invariant and what it gives between barriers, `MatmulSteps` proves that every step keeps it, `MatmulGrid`
  runs all blocks of a launch in any interleaving (a block whose 32-bit index arithmetic overflows has no
  defined behaviour, and takes no step), `MatmulLive` and `MatmulTotal` prove progress and
  termination, `MatmulEpilogue` is the store loop on an array. `Swizzle` has the block order, `CublasGemm`
  the other branch of the operation.
- **Memory pool.** `PoolModel` is a transition system: allocate, preallocate, use, and the three sub-steps
  of a release on the host side, stream heads on the device side. `PoolConservation`, `PoolHighWater` and
  `PoolOrdering` are about all its runs. `MemoryPool` has the classes; every method is proved to be one
  step of the transition system.
- **Graph capture.** `GraphCapture` specifies each call with every outcome of the driver and the callback;
  `GraphManager` has the classes `GraphObject` and `Manager`.
- **Tensor views.** `Strides` is mixed-radix arithmetic for any number of dimensions, `TensorView` the view
  operations and what every chain of them keeps, `ViewLayout` what contiguity means for the layout, `ContiguousKernel` the kernel, its launch and the flat copies.
- **Softmax and quantisation.** `WarpReduce` (any commutative monoid), `Softmax`, `Quantization`.
- **Telemetry.** `TelemetryModel` is the state machine, `TelemetrySummary` what a group has measured and how
  it is read back, `TelemetryScopes` nested `time` calls, `TelemetryRecords` what the records say, `TelemetryRecorder` the class, `JsonEscape` the export; `OpKinds` has the operation kinds both use.
- `Arithmetic` and `Wrappers` are helpers.

## What the proofs say about the code

- The wait in front of the first barrier is for all copy groups, the one just issued included. So while any
  thread of a block multiplies, none of the block's copies is in flight: the two stages are safe, but
  copying the next tile never overlaps multiplying the current one.
- Block numbers and block origins are computed in 32-bit ints. On a grid that can be launched (at most 65535
  tile rows) they are defined for every block if and only if N <= 2^31 and there are at most 2^31 tiles; for
  other shapes no run of the launch comes to its end.
- The load guard looks only at the first element of an 8-element vector. In-range results are exact for all
  shapes, because the other operand is zero there or the column is not stored. The reads themselves stay
  inside the buffer exactly when the rows are whole vectors.
- The materialisation kernel computes its index in 32-bit arithmetic: a launch covers the destination if and
  only if it has at most 2^32 elements. A view without elements that is not contiguous asks for an empty grid.
- The assertion in `slice` admits a negative start; the slice then leaves its parent unless it is empty. The
  one in `permute` admits repeated dimensions; the view stays injective if and only if none of more than one
  element is repeated.
- The column counter of softmax is an int: no lane overflows it if and only if there are at most 2^31 - 32 columns.
- `is_contiguous` also compares the strides of dimensions of one element, so it refuses some views whose elements
  do lie one after the other.
- The cuBLAS branch casts sizes to `int`: it computes the product for all data if and only if all three
  sizes are below 2^31.
- After a capture that fails the growth check, the older executable stays and can still be launched,
  although the graph it came from has been destroyed and replaced.
- A scope that is open when pending events are resolved leaves its start event undestroyed for good: over a
  whole run every event is destroyed exactly once if and only if no resolve met an open scope. Its handle then
  names a later scope's slot, and stopping both destroys that scope's start event twice.
- A resolve that fails at one entry leaves the entries before it pending. Resolving again records them a second
  time and destroys their events, and those of the entry that failed, twice.
- An escaped label is a legal JSON string if and only if it has no control character but `\n`, `\r`, `\t`.

## Model

| member | source | states |
|---|---|---|
| MatmulGrid.KernelRefinesTripleLoop | src/kernels/matmul_wmma.cu:51-219 | for every shape with M, N, K >= 1 and every interleaving of blocks, threads and landing copies, when all threads are done C is the triple loop's product on its M*N elements and nothing else has changed; on a launchable grid (M <= 65535*128) such runs exist only when N <= 2^31 and there are at most 2^31 tiles, as the 32-bit indices demand |
| MatmulGrid.KernelMultiplies | src/kernels/matmul_wmma.cu:51-219 | the same, shape range included, on flat row-major buffers, an over-read finding whatever follows in the buffer |
| MatmulTotal.KernelTotallyCorrect | src/kernels/matmul_wmma.cu:51-219 | on any launchable grid the length of a run is bounded; where no step is possible any more all threads are done if and only if N <= 2^31 and there are at most 2^31 tiles, and then C holds the product |
| MatmulTotal.LaunchEnds | src/kernels/matmul_wmma.cu:144-206 | every run of a launch is finite, and while some thread is not done, all blocks' indices being defined, some step is possible: barriers, waits and converging warps never deadlock |
| MatmulLive.Progress | src/kernels/matmul_wmma.cu:144-206 | in every reachable state of a block that is not final some step is enabled |
| MatmulLive.RunsEnd | src/kernels/matmul_wmma.cu:144-206 | every run of one block is bounded by its initial rank and can go on until all threads are done |
| MatmulLive.StepConverged | src/kernels/matmul_wmma.cu:162-203 | the lanes of a warp have always multiplied the same columns and stored together |
| MatmulGrid.StoredExactlyOnce | src/kernels/matmul_wmma.cu:58-92 | each element of C is stored by exactly one block, thread and epilogue iteration |
| MatmulGrid.NoIdleBlock | src/kernels/matmul_wmma.yaml:3-6 | every launched block has an element of C in range |
| MatmulGrid.EpilogueReadsProduct | src/kernels/matmul_wmma.cu:207-218 | what a thread in the epilogue finds in Cs at an in-range position is the exact element of the product |
| MatmulGrid.StepWritesProduct | src/kernels/matmul_wmma.cu:207-218 | no step of any thread changes C except at one address of the product, to the value that belongs there |
| MatmulGrid.RunInvariant | src/kernels/matmul_wmma.cu:51-219 | the launch invariant (each block's pipeline invariant, written elements correct, nothing else touched) holds after every run |
| MatmulEpilogue.StoreTile | src/kernels/matmul_wmma.cu:207-218 | one thread's store loop puts each of its in-range tile elements at its own address of C and leaves every other address alone |
| MatmulEpilogue.AddressIsOwn | src/kernels/matmul_wmma.cu:209-217 | in-range tile elements have addresses inside C, different elements different ones |
| MatmulSteps.StepInv | src/kernels/matmul_wmma.cu:76-206 | every step of every thread, copy or warp keeps the pipeline invariant: registers by loop position, threads at most one barrier apart, stages holding or awaiting the right tile, exact partial sums |
| MatmulSteps.MmaAdds | src/kernels/matmul_wmma.cu:162-186 | multiplying a stage that holds tile k adds exactly the padded sum over the tile's columns |
| MatmulPipeline.InitInv | src/kernels/matmul_wmma.cu:94-148 | the launch state satisfies the invariant |
| MatmulPipeline.NoCopyWhileMultiplying | src/kernels/matmul_wmma.cu:157-188 | while a thread multiplies, every thread of the block is in the same iteration between its two barriers and no copy of the block is in flight |
| MatmulPipeline.StageHoldsTile | src/kernels/matmul_wmma.cu:144-191 | the stage a multiplying thread reads holds exactly the values of the tile at its k0, zero fill included |
| MatmulPipeline.NoReaderWhileStoring | src/kernels/matmul_wmma.cu:76-84 | once a thread stores to the overlapping Cs, no thread loads or multiplies any more |
| MatmulPipeline.AllStoredInEpilogue | src/kernels/matmul_wmma.cu:194-206 | a thread in the epilogue knows that every warp has finished and stored its sums |
| MatmulPipeline.VectorCovers | src/kernels/matmul_wmma.cu:108-138 | each cell of a stage is in a vector of the thread that owns it, which brings the cell's value |
| MatmulPipeline.CopyIsVector | src/kernels/matmul_wmma.cu:108-138 | a copy that touches a cell is the cell's own vector: no two threads write the same cell for one tile |
| MatmulBlock.LoadTileAsync | src/kernels/matmul_wmma.cu:108-142 | the two strided loops of a thread issue, in order, two vectors of A and one of B with the guards of the source: exactly the group of copies its next wait is for |
| MatmulSpec.PaddedIsExact | src/kernels/matmul_wmma.cu:110-137 | for every K and N, zero fill and over-read past a row never change an in-range sum |
| MatmulSpec.GuardReach | src/kernels/matmul_wmma.cu:117-132 | the guard on a vector's first element admits exactly the elements below the next multiple of 8 |
| MatmulSpec.GuardedReadsInsideIff | src/kernels/matmul_wmma.cu:110-137 | all reads the guard admits stay inside the buffer if and only if the number of columns is a multiple of 8 |
| Swizzle.TileIsHit | src/kernels/matmul_wmma.cu:58-74 | every tile of the grid is worked on by a launched block, also in a last group of fewer than 8 rows |
| Swizzle.BlockIsUnique | src/kernels/matmul_wmma.cu:58-74 | no two blocks work on the same tile: with TileIsHit the swizzle is a bijection |
| Swizzle.BlocksWalkColumns | src/kernels/matmul_wmma.cu:58-74 | consecutive blocks go down a column of 8 tile rows (fewer in the last group), then to the group's next column, then to the next group |
| Swizzle.SwizzleFitsInt32 | src/kernels/matmul_wmma.cu:59-74 | with at most 65535 tile rows, every value that every block computes in a 32-bit int, block_row and block_col included, fits if and only if there are at most 2^31 tiles in at most 2^25 columns |
| MatmulGrid.AllDefinedIff | src/kernels/matmul_wmma.cu:59-74 | the same in terms of the shape: all blocks of a launchable grid are defined if and only if N <= 2^31 and there are at most 2^31 tiles |
| MatmulGrid.OutOfRangeNeverEnds | src/kernels/matmul_wmma.cu:59-74 | for any other shape no run brings every block to its end |
| CublasGemm.CublasMultipliesIff | src/backends/cublas_backend.cpp:56-82 | the backend's call leaves the row-major product for all data if and only if M, N and K are below 2^31 |
| CublasGemm.FittingSizesMultiply | src/backends/cublas_backend.cpp:66-82 | a column-major GEMM called with (N, M, K), b with ld N, a with ld K, c with ld N writes the row-major product and nothing else |
| CublasGemm.BranchesAgree | src/backends/cublas_backend.cpp:51-82 | the cuBLAS branch and any finished run of the custom kernel leave the same C, address by address |
| PoolOrdering.ReuseIsStreamOrdered | src/core/memory.cpp:89-135 | in every run the device executes the operations of a pointer's successive owners in owner order, over any streams and chains of any length, owners that issue nothing included; none of an earlier owner is pending when a later one's has run |
| PoolOrdering.StepOrdered | src/core/memory.cpp:89-135 | every host or device step keeps the ordering invariant (operations in front of their release's record, everything of the next owner behind a wait for it) |
| PoolOrdering.HeadIsOldest | src/core/memory.cpp:95-99 | an operation at the head of a stream has no pending operation of an earlier owner anywhere |
| PoolOrdering.DeviceAdvances | src/core/memory.cpp:95-121 | the waits inserted for reuse never deadlock: if anything is pending, some stream can advance |
| PoolConservation.StepConserved | src/core/memory.cpp:25-140 | every step keeps conservation: each raw-allocated pointer is in one live buffer, in one free-list entry of its class, or between two sub-steps of one release; reserved = in use + free bytes; outstanding = live + mid-release |
| PoolConservation.RunConserved | src/core/memory.cpp:25-140 | hence conservation in every state of every run |
| PoolConservation.HandedOutIsFree | src/core/memory.cpp:86-104 | allocate hands out a free block of the right class, or a new one exactly when the bucket is empty |
| PoolHighWater.LastReturnedIsNext | src/core/memory.cpp:89-127 | the block returned last is the next one handed out of its class, behind a wait for its release on the new stream, and the bucket is as before |
| PoolHighWater.NewestIsNext | src/core/memory.cpp:71-99 | preallocated blocks are handed out newest first, without a wait |
| PoolConservation.FreedExactlyOnce | src/core/memory.cpp:43-60 | when the shared state dies, no buffer is outstanding and the destructor's loops free every pointer exactly once |
| PoolHighWater.HighWater | src/core/memory.cpp:71-106 | over any run that does not preallocate a class, its blocks end as the maximum of those it had and its peak of simultaneously used blocks |
| PoolHighWater.HighWaterFromEmpty | src/core/memory.cpp:71-106 | n blocks preallocated first: blocks ever reserved are max(n, peak) |
| PoolHighWater.StepBlocks | src/core/memory.cpp:71-106 | a step adds blocks to a class exactly when it preallocates or allocates from its empty bucket |
| PoolHighWater.ReservedUnchangedIff | src/core/memory.cpp:142-152 | bytes_reserved never falls, and is unchanged over a run if and only if no class gained a block |
| PoolHighWater.StrictCheckPassesIff | src/core/graph.cpp:17-47 | bytes_reserved is the same at both ends of a window if and only if nothing is preallocated in it and each class's extra buffers never exceed its free blocks at the start |
| MemoryPool.RoundToSizeClass | src/core/memory.cpp:18-23 | the doubling loop finds the least 256*2^k that holds the request: 256 up to 256 bytes, beyond that less than twice the request, without overflow up to 2^63 bytes |
| MemoryPool.PoolImpl.RawAlloc | src/core/memory.cpp:34-41 | a new pointer, and reserved bytes raised by the size |
| MemoryPool.PoolImpl.Preallocate | src/core/memory.cpp:71-80 | the loop is exactly the preallocation step of the transition system and keeps both invariants |
| MemoryPool.PoolImpl.Allocate | src/core/memory.cpp:82-140 | exactly the allocation step; the pointer was free or new and is now a live buffer of the least fitting class |
| MemoryPool.PoolImpl.RecordRelease | src/core/memory.cpp:112-121 | exactly the first sub-step of a release: an event recorded on the buffer's stream |
| MemoryPool.PoolImpl.ReturnBlock | src/core/memory.cpp:123-127 | exactly the locked sub-step: the block is free with its event, bytes in use are lowered |
| MemoryPool.PoolImpl.LowerCounter | src/core/memory.cpp:128-128 | exactly the last sub-step: the outstanding counter |
| MemoryPool.PoolImpl.Release | src/core/memory.cpp:112-135 | an undisturbed release frees the block and undoes what its allocation did to the counters |
| MemoryPool.PoolImpl.BytesInUse | src/core/memory.cpp:142-146 | the sum of the class sizes of all blocks that are live or mid-release |
| MemoryPool.PoolImpl.BytesReserved | src/core/memory.cpp:148-152 | the sum over all pointers, which is bytes in use plus free bytes |
| GraphCapture.FromEmpty | src/core/graph_manager.cpp:56-72 | after any sequence of outermost captures with any mix of outcomes: no graph is capturing, no stream in capture, every handle ever created is held by exactly one field or destroyed exactly once, each executable is none or from its graph's latest capture that passed the growth check |
| GraphCapture.CallTidy | src/core/graph_manager.cpp:56-72 | one capture call keeps all of that, for the graph named and for all others |
| GraphCapture.CaptureAccounts | src/core/graph.cpp:13-80 | on every outcome, each handle made or dropped is held afterwards or destroyed once, and no other handle is touched |
| GraphCapture.CaptureEnds | src/core/graph.cpp:26-71 | on every outcome the graph is not capturing and the stream is as before |
| GraphCapture.CaptureExec | src/core/graph.cpp:38-80 | the executable is from the new graph exactly when the capture passed and instantiation succeeded, gone when only instantiation failed, unchanged when the capture did not pass |
| GraphCapture.CaptureErrors | src/core/graph.cpp:13-80 | which error each guard gives: a growth error if and only if begin and end succeed, the callback returns, the capture is strict and the readings differ, and likewise for the others |
| GraphCapture.CaptureGraph | src/core/graph.cpp:26-71 | the recorded graph is kept when nothing was recorded, gone when ending failed, otherwise the new one, also when the pool grew |
| GraphCapture.Guards | src/core/graph.cpp:13-29 | a second begin, and an end or abort without a begin, change nothing |
| GraphCapture.CallsKeepStreams | src/core/graph_manager.cpp:36-44 | over any sequence of captures different names have different streams, and keep them |
| GraphCapture.StrictCapturePassesIff | src/core/graph.cpp:13-49 | a strict capture whose callback and driver calls succeed passes if and only if, in the pool's run between its two readings, nothing is preallocated and every class fits its free blocks |
| GraphCapture.DestructReleases | src/core/graph.cpp:8-11 | the destructor destroys exactly the handles still held, once each |
| GraphManager.GraphObject.BeginCapture | src/core/graph.cpp:13-24 | the method leaves the specified state and error, the nested-capture error and a driver refusal included |
| GraphManager.GraphObject.EndCapture | src/core/graph.cpp:26-49 | likewise: old graph destroyed, new one taken, growth check, instantiation |
| GraphManager.GraphObject.AbortCapture | src/core/graph.cpp:65-71 | likewise, a dangling graph being destroyed at once |
| GraphManager.GraphObject.InstantiateGraph | src/core/graph.cpp:73-80 | likewise: the old executable is destroyed first, so a failure leaves none |
| GraphManager.Manager.Capture | src/core/graph_manager.cpp:56-72 | the objects end in the state of the capture specification for every outcome, other graphs unchanged, and stay tidy |
| GraphManager.Manager.GetOrCreate | src/core/graph_manager.cpp:12-19 | the named graph, a new one only when there was none; no graph is shared between names |
| GraphManager.Manager.StreamFor | src/core/graph_manager.cpp:36-44 | each name keeps its own stream once it has one |
| GraphManager.Manager.LaunchNamed | src/core/graph_manager.cpp:46-54 | unknown names, graphs without an executable and a refusal by the driver give their errors, otherwise the graph's executable goes to the name's own stream; the name has a stream afterwards in any case |
| TensorView.ReachableEmbeds | include/core/tensor.hpp:27-142 | whatever the chain of transpose, permute, slice and reshape, the view maps its multi-indices injectively into the buffer and never outside it; where the assertions are too weak for that, the operation meets the exact condition (no dimension of more than one element listed twice, no negative start of a slice with elements) |
| TensorView.PermuteEmbedsIff | include/core/tensor.hpp:111-122 | for a view with elements and any list of dimensions the assertion admits, the permuted view is injective and inside the buffer if and only if no dimension of more than one element is listed twice |
| TensorView.ApplySelects | include/core/tensor.hpp:101-142 | each element of a new view is the element of the old one at the parent index the operation promises |
| ViewLayout.ApplyCovers | include/core/tensor.hpp:101-142 | nothing is lost: every element an operation is to show (a slice's range, otherwise all) is at some index of the new view |
| ViewLayout.ParentIsShown | include/core/tensor.hpp:101-142 | and nothing else is shown |
| TensorView.ParentInjective | include/core/tensor.hpp:101-142 | no operation shows one element twice |
| TensorView.Root | include/core/tensor.hpp:101-142 | for any chain, the element of the first view that an index of the last one stands for |
| TensorView.ContiguousIsRange | include/core/tensor.hpp:99-99 | element l of a contiguous view in row-major order is buffer element offset + l |
| ViewLayout.ContiguousIff | include/core/tensor.hpp:99-99 | is_contiguous holds, at any offset, if and only if each stride is the product of the later extents |
| ViewLayout.FlatIff | include/core/tensor.hpp:99-99 | the elements of a view lie one after the other from its offset if and only if the strides of its dimensions of more than one element are row-major; is_contiguous asks it of all dimensions |
| ViewLayout.SliceContiguousIff | include/core/tensor.hpp:124-132 | a slice of a contiguous view is contiguous if and only if it cuts the first dimension or takes all of its dimension |
| ViewLayout.RowSliceReshapes | include/core/tensor.hpp:124-142 | a slice of rows, wherever it starts, is accepted by reshape and by the transfers |
| ViewLayout.ReshapeAcceptedIff | include/core/tensor.hpp:134-142 | reshape is refused exactly when some stride is not row-major |
| ViewLayout.NewTensorFillsBuffer | include/core/tensor.hpp:27-34 | a new tensor is row-major and its elements in order are exactly its buffer |
| TensorView.ReshapeKeepsOrder | include/core/tensor.hpp:134-142 | reshape keeps the row-major sequence of elements, for every shape of equal element count |
| TensorView.SliceStaysInsideIff | include/core/tensor.hpp:124-132 | under the source's assertions, negative lengths included, a slice stays inside its parent if and only if start is not negative or it has no elements |
| Strides.ContiguousStrides | src/core/tensor.cpp:4-14 | the backward loop computes the row-major strides |
| Strides.StrideIsSuffixProduct | src/core/tensor.cpp:4-14 | stride i is the product of the later extents |
| Strides.UnravelRavel | src/kernels/contiguous.cu:30-35 | repeated division from the last axis recovers the multi-index from its row-major position |
| Strides.RavelUnravel | src/kernels/contiguous.cu:30-35 | and the other way round: positions below the element count and multi-indices correspond one to one |
| Strides.DotIsRavel | src/core/tensor.cpp:4-14 | the inner product with row-major strides is the row-major position |
| ContiguousKernel.LocateSource | src/kernels/contiguous.cu:27-35 | the div/mod loop of one thread computes the strided offset of the element at its row-major position |
| ContiguousKernel.WrittenByOneThread | src/kernels/contiguous.cu:24-37 | up to 2^32 elements each destination is written by exactly one thread of the launch |
| ContiguousKernel.LaunchCoversIff | scripts/compile_kernel.py:246-247 | the ceil-division launch with its 32-bit index covers all destinations if and only if there are at most 2^32 |
| ContiguousKernel.GridIsLeast | scripts/compile_kernel.py:246-247 | no block of the launch is without an element |
| ContiguousKernel.Launch | src/kernels/contiguous.cu:18-39 | all threads in any order leave the view's elements in row-major order and nothing else changed |
| ContiguousKernel.Contiguous | include/core/tensor.hpp:152-176 | a view with row-major strides, of any size and at any offset, comes back as it is; otherwise the result is a row-major buffer of just the right size with the same shape and, at every multi-index, the view's element; only an empty view that is not row-major fails |
| ContiguousKernel.ToHost | include/core/tensor.hpp:186-195 | refused when a stride is not row-major, then when the count differs, and otherwise, at any offset, the flat copy delivers the view's row-major sequence |
| ContiguousKernel.ToDevice | include/core/tensor.hpp:178-184 | refused under the same conditions, and otherwise the flat copy sets exactly the elements of the view |
| WarpReduce.Reduce | include/kernels/common.cuh:41-51 | after the five shuffle-down rounds lane 0 holds all 32 values combined, out-of-range lanes receiving their own value |
| WarpReduce.RoundHalves | include/kernels/common.cuh:41-51 | one round folds twice as many lanes into the first half, for any commutative monoid |
| WarpReduce.LaneFold | src/kernels/softmax.cu:21-29 | the strided loop of a lane combines exactly the columns congruent to it |
| WarpReduce.LanesMakeRow | src/kernels/softmax.cu:21-29 | the lanes share out the columns: their results combine to the sequential reduction of the row |
| WarpReduce.RowReduce | src/kernels/softmax.cu:21-31 | strided loops, shuffle tree and broadcast leave every lane with the sequential row reduction |
| Softmax.ShiftCancels | src/kernels/softmax.cu:27-36 | subtracting any shift from all columns leaves the quotient a lane writes equal to the softmax |
| Softmax.SoftmaxRow | src/kernels/softmax.cu:10-37 | one block writes exp(x_c) / sum exp(x_j) to its row and nothing outside it |
| Softmax.SoftmaxKernel | src/kernels/softmax.cu:10-37 | the launch leaves the softmax of every row |
| Softmax.CounterFitsIff | src/kernels/softmax.cu:22-33 | no value the column counter of a lane takes leaves a 32-bit int if and only if there are at most 2^31 - 32 columns |
| Softmax.WriteLane | src/kernels/softmax.cu:33-36 | the last strided loop writes exactly the lane's columns |
| Quantization.QuantizationError | include/core/dtype_utils.hpp:117-136 | with the array's own scale the clamp changes nothing, codes are in [-127, 127] and every value comes back within half a step |
| Quantization.SecondPassIsIdentity | include/core/dtype_utils.hpp:117-136 | dequantised data give the same scale and the same codes again |
| Quantization.MaxAbsIsMaximum | include/core/dtype_utils.hpp:117-122 | the scale's numerator bounds every magnitude and is one of them |
| Quantization.ExtremeCode | include/core/dtype_utils.hpp:124-131 | an element of 127 steps gets code 127 or -127 |
| Quantization.ExtremeCodeIsUsed | include/core/dtype_utils.hpp:117-131 | in data that are not all zero some element gets code 127 or -127 under the data's own scale |
| Quantization.RoundIsNearest | include/core/dtype_utils.hpp:129-129 | rounding gives the nearest integer and, of two, the one further from zero, and no other |
| Quantization.CodeIs | include/core/dtype_utils.hpp:128-129 | for any scale the code is the nearest number of steps, cut off at 127 on both sides |
| Quantization.ComputeSymmetricScale | include/core/dtype_utils.hpp:117-122 | the loop returns the scale of which the largest magnitude is exactly 127 steps, and 1 for data that are all zero |
| Quantization.QuantizeI8 | include/core/dtype_utils.hpp:124-131 | the loop writes for each element the nearest number of steps, cut off at 127 |
| Quantization.DequantizeI8 | include/core/dtype_utils.hpp:133-136 | the loop writes code times scale |
| TelemetrySummary.SummaryReportsReplays | src/telemetry/telemetry.cpp:253-272 | after any legal session of benchmarks with distinct labels, other scopes and resolves in between and a resolve at the end, each group's summary is exactly its replays, the i-th sum being iteration i's durations |
| TelemetrySummary.ApplyMeasured | src/telemetry/telemetry.cpp:102-189 | no call loses, repeats or reorders a measurement of any group; a resolve only moves them from the pending entries to the records |
| TelemetryRecords.RecordsAreTheStops | src/telemetry/telemetry.cpp:77-189 | in every run the records, then the pending entries, are the stopped scopes one for one in stop order, record j with the scope's own name, kind, flags and counts, its stream's number, the group of its stop, its own duration and sequence number j |
| TelemetryRecords.ApplyTranscribes | src/telemetry/telemetry.cpp:77-189 | each call keeps that: a stop adds exactly what it hands over, a resolve only turns entries into records |
| TelemetryRecords.TimeCallsHand | include/telemetry/telemetry_scope.hpp:8-56 | nested calls of time hand over their own information, inner calls first, each timed from its own start event to its own end event |
| TelemetrySummary.UnknownGroupListsEach | src/telemetry/telemetry.cpp:255-272 | a group that was never begun has every record as a replay of its own |
| TelemetrySummary.CutsIntoChunks | src/telemetry/telemetry.cpp:262-272 | cutting every k durations recovers chunks of k, an incomplete last chunk being dropped |
| TelemetrySummary.TotalIsKept | src/telemetry/telemetry.cpp:280-283 | the replays' durations add up to everything measured |
| TelemetrySummary.CollectReplays | src/telemetry/telemetry.cpp:258-272 | the accumulator loop computes the chunk sums of the group's durations, also for zero operations per iteration |
| TelemetryModel.EventsDestroyedOnce | src/telemetry/telemetry.cpp:102-189 | in every legal run ending in a resolve, each event ever created has been destroyed exactly once |
| TelemetryModel.ResolveEvents | src/telemetry/telemetry.cpp:157-189 | a resolve leaves every event destroyed exactly once if and only if no scope is open |
| TelemetryModel.DestroyedOnceIff | src/telemetry/telemetry.cpp:102-189 | over any run that stops each scope once and ends in a resolve, every event is destroyed exactly once if and only if no resolve met an open scope |
| TelemetryModel.StaleHandleDestroysTwice | src/telemetry/telemetry.cpp:119-131 | a run in which a scope survives a resolve and its handle names a later scope's slot: one start event is never destroyed, the other twice |
| TelemetryModel.StopPastTheEnd | src/telemetry/telemetry.cpp:127-130 | a stop with a handle past the end changes nothing |
| TelemetryModel.FailureEvents | src/telemetry/telemetry.cpp:104-148 | a start or stop whose event cannot be created or recorded destroys exactly the events it leaves without an owner |
| TelemetryModel.RetryDestroysTwice | src/telemetry/telemetry.cpp:157-189 | after a resolve that failed at entry i, a second one destroys the events of entries 0 to i once more, and all others exactly once |
| TelemetryModel.RetryRepeatsRecords | src/telemetry/telemetry.cpp:157-189 | and records the i entries before the failure a second time |
| TelemetryModel.RunStreamsOk | src/telemetry/telemetry.cpp:56-66 | in every run stream numbers are dense and different streams have different ones |
| TelemetryModel.RunEvents | src/telemetry/telemetry.cpp:102-189 | at every moment of a legal run, failing starts and stops included, an event is destroyed once, owed by one pending entry, or the start of one open scope |
| TelemetryModel.ResolveRecords | src/telemetry/telemetry.cpp:157-189 | each resolve appends one record per pending entry, in end order, with consecutive sequence numbers, the group of its stop and the number of its stream, which never changes |
| TelemetryScopes.TimeCallsAreLegal | include/telemetry/telemetry_scope.hpp:8-56 | however calls of time nest, every scope is stopped exactly once, none stays open, and each call makes one pending entry |
| TelemetryScopes.TimedBenchmarkIsLegal | include/telemetry/telemetry.hpp:88-95 | a benchmark whose iterations each make k >= 1 calls of time is a legal benchmark of k operations |
| TelemetryRecorder.Telemetry.BeginGroup | src/telemetry/telemetry.cpp:43-47 | the object makes the specified step |
| TelemetryRecorder.Telemetry.EndGroup | src/telemetry/telemetry.cpp:49-54 | likewise; the operations per iteration survive |
| TelemetryRecorder.Telemetry.ResolveStreamId | src/telemetry/telemetry.cpp:56-66 | a stream seen before keeps its number, a new one gets the next |
| TelemetryRecorder.Telemetry.RecordWithGroup | src/telemetry/telemetry.cpp:77-99 | one record with the next sequence number, the scope's information and the number of its stream is appended |
| TelemetryRecorder.Telemetry.BeginAsync | src/telemetry/telemetry.cpp:102-121 | the specified step on success and on both failures; the handle is the slot of the new event |
| TelemetryRecorder.Telemetry.EndAsync | src/telemetry/telemetry.cpp:123-155 | the specified step on success and on both failures: a handle past the end is ignored, the group is frozen at the stop, a failure destroys the start event |
| TelemetryRecorder.Telemetry.ResolvePending | src/telemetry/telemetry.cpp:157-189 | the loop is the specified resolve: records appended, both events destroyed, pending and in-flight lists emptied; when the driver fails at an entry, its events are destroyed and the lists stay as they were |
| TelemetryRecorder.Telemetry.TimeAll | include/telemetry/telemetry_scope.hpp:48-56 | nested scopes run their events in construction and destruction order |
| TelemetryRecorder.Telemetry.Benchmark | include/telemetry/telemetry.hpp:88-95 | the loop runs the group's opening, every iteration in turn, and its closing |
| TelemetryRecorder.Telemetry.PrintSummary | src/telemetry/telemetry.cpp:253-286 | no report without replays, else their number, average, first and last |
| JsonEscape.JsonEscape | src/telemetry/telemetry.cpp:198-221 | the loop with its switch computes the escaped string |
| JsonEscape.UnescapeEscape | src/telemetry/telemetry.cpp:198-221 | unescaping an escaped label gives back the label, for every string |
| JsonEscape.ScanStopsAtEnd | src/telemetry/telemetry.cpp:224-230 | a scanner started after the opening quotation mark stops exactly at the one written after the escaped label, whatever follows |
| JsonEscape.BodyIsLegalIff | src/telemetry/telemetry.cpp:198-221 | the escaped label is a legal string by section 7 of RFC 8259 if and only if it has no control character but newline, carriage return and tab |
| JsonEscape.NoLineBreak | src/telemetry/telemetry.cpp:204-217 | no line break survives escaping, so a record stays on one line |
| JsonEscape.ReadBack | src/telemetry/telemetry.cpp:224-240 | reading an exported line gives back the whole record, whatever the label: sequence number, label, operation kind, and every number and flag under its own key |
| JsonEscape.KindBack | src/telemetry/telemetry.cpp:9-24 | each operation kind is printed under its own name, so kinds are told apart |

## Left out

- Floating point: rounding of bf16, fp16 and float, the accuracy of expf and erff, infinities other than the start value of the row maximum.
- The inside of CUDA, cuBLAS, cuDNN and cuTENSOR, module loading, MQTT publishing, embedded cubins, the build, and text generation; only the ceil-division grid rule is used.
- The generated operation wrappers: statements about the matrix product are about the kernel and the cuBLAS call with C sized M*N.
- Operation dispatch, backend capabilities and the registry key: finite tables.
- Elementwise kernels, host buffers, stream guards, device detection, error texts, timestamps and number printing: easy members.
- K = 0 in the matrix-product kernel (the loop with the wait never runs), the 16-byte alignment of copies when N or K is not a multiple of 8, and the padding of shared rows against bank conflicts.
- The k0 loop is a state machine over thread steps, not a Dafny loop, because its point is the interleaving of 256 threads; warp-wide operations are one step of a converged warp.
- 64-bit overflow of sizes, strides and offsets; sizes above 2^63 bytes in the size-class loop, where the shift would wrap to zero.
- Softmax.SoftmaxKernel: the column counter is unbounded; Softmax.CounterFitsIff says for which rows the source's int agrees. Rows are done one after the other because blocks touch disjoint rows.
- Failure paths the pool does not handle: an event that cannot be created (the block is then reused without a wait), an exception after the block is popped, host memory running out; CUDA calls of the pool succeed.
- Owners issue operations only on the stream their buffer was allocated for, while the buffer is live; streams outlive the work queued on them.
- The waited-for event is destroyed by allocate right after the wait is queued; event destruction is modelled only in telemetry.
- Replay safety of buffers released after a capture, and updating an executable from another graph: the code guarantees nothing.
- Nested captures of the same name inside the callback; captures are outermost calls, and the pool's run during a capture is any run.
- TensorView.ReachableEmbeds: lengths of slices are not negative and reshape has the same element count; a permute of a view without elements must have none either.
- Reshape reads the requested shape both for the new shape and for its strides; the unspecified evaluation order of the move at include/core/tensor.hpp:141 is not modelled.
- Host timestamps in records, the labels a failed resolve has already moved out of the entries that stay pending, the termination of the program when a scope's destructor throws, and clearing or restarting a session.
- TelemetrySummary.SummaryReportsReplays: benchmarks are not nested and labels are distinct; the empty label, which scopes outside every group carry, must not meet such scopes.
- JsonEscape.ReadBack: timestamps, durations and counts are given as printed text without a comma or closing brace, and labels are sequences of characters, not bytes of an encoding.
