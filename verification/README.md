# RenderScript runtime: verified models

This project models the parts of the RenderScript runtime in which most can go wrong, and proves in
Dafny what they promise. Nothing here executes the runtime: the models restate the logic of the source
with its branches, constants and error cases, and every claim below is a contract or a lemma that Dafny
verifies. `dafny verify dfyconfig.toml` checks all of it.

Each module follows one component.

- `WorkerPool`: the helper threads of the CPU driver, their signals, startup and `launchThreads`, as a
  step system with arbitrary interleaving. Safety of the barrier over all runs, freedom from deadlock, and
  a bound on the length of a round. What spurious wakeups do is stated separately.
- `SliceScheduler`: how workers share a launch by an atomic slice counter in 32-bit arithmetic. Every cell
  is visited exactly once if and only if no slice start that is claimed wraps around, and then the output
  is the output of the serial loop. Every run ends, and every run can be completed, wrapped or not.
- `Launching`: both together. The callback of the pool is the slice loop, and memory passes from launch to
  launch: when a launch returns, its slices are a completed run, and no launch hangs.
- `Simd`, `ColorMatrix`, `ColorKernel`, `ColorExact`, `ColorScript`: the run-time code generator of the
  color matrix intrinsic. The words it emits are decoded again as ARM instructions and executed on a
  register model, between models of the precompiled chunks that load, unpack, pack and store, over all
  groups of a row. For computed columns, for packing and for copied channels the exact condition is given
  under which the result is the matrix product.
- `ObjectLifetime`: reference counts, the list of all objects, cascading deletes, slot assignment and
  teardown, on an explicit store in which a deleted object is gone. What is left after each operation is
  characterised exactly, as the largest set of objects that hold each other up.
- `GlyphCache`: the font renderer's texture cache, flushes and the quad queue. The cache does not show:
  what reaches the screen is the text.
- `CommandRpc`: what the API generator emits for senders and players, the frames between them, and runs of
  a client, a finalizer and the RS thread over the two byte queues.
- `ScriptGroup`: the node graph of a script group, its ordering, link allocation and execution. Every kernel
  is given what it should be if and only if it runs after the one it reads from.
- `Streams`, `FileA3D`, `Elements`: serialization. What is written reads back, files reload to the same
  index and objects, and an element read back in its context is the identical object.
- `PackedData`: element layouts and the copy between padded and packed cells, in both directions.
- `Lut3D`: the fixed-point 3D lookup table kernel, with bounds on its addresses, its intermediate values
  and its error.
- `MipChain`: level counts and cell counts of types, as the runtime and the client library compute them.
- `Bytes`, `Common`: little-endian numbers, slices and other definitions that the modules share.

Where the source changes state step by step the model does so too: classes with fields and `modifies`
clauses, arrays for buffers, and loops with invariants, each method specified by a function of the state
before it. Pure and concurrent parts are functions and lemmas.

Some properties one would expect are false of the source as it is. For those the source is kept, and the
members named here state exactly when the property holds and show where it fails:

- a slice counter can wrap (`SliceScheduler.ExactlyOnceIffNoWrap`, `LastRowFails`), and the parallel launch
  ignores the array, z and, over x, y ranges that the serial one honours
  (`SliceScheduler.SameVisitsIffOnePlane`, `TwoPlanesFail`, `SameCellsIffRowZero`);
- with copy-alpha the generated code loses the alpha row of the matrix for the other columns; a column with
  only an offset adds it to pairs of pixels; a red column with neither is whatever Q8 held
  (`ColorExact.RightIff`, `AlphaToRedFails`, `RedConstantFails`, `NoRedFails`);
- when the color columns are equal, the computed alpha is dropped (`ColorExact.DotAlphaIff`, `GrayFails`);
- sums are cut to 16 bits before they are clamped (`ColorExact.PackIff`, `GlareWraps`); what all this does to
  the stored bytes is exact in `ColorExact.StoredIff` and `ColorScript.ChannelIff`;
- a row whose length is no multiple of four is not written to its end (`ColorScript.Script.RunRow`);
- `ObjectBaseRef::set` can delete the object it is about to refer to
  (`ObjectLifetime.Context.RefSet`, `SetDeletesItsTarget`); `rsrSetObject` cannot; clearing a member can
  delete the object that has it (`ObjectLifetime.HolderGoes`, `ClearDeletesItsHolder`);
- a string can be longer than the one doubling `addString` makes room for
  (`Streams.OStream.AddString`, `LongStringOverruns`);
- two equal elements can exist, for component descriptions that `Component::set` overrides
  (`Elements.ElementState.CreateLeaf`, `NotCanonicalTwice`) and for names with a zero byte in them
  (`Elements.ElementState.CreateStruct`, `ZeroInName`), and elements with reference types do not read back
  (`Elements.SameObject`, `ReferenceNotWritable`);
- packing loses all but the first element of array fields (`PackedData.FieldsLayout`, `RoundTripIff`);
- the 3D lookup reads outside the table for some dimensions, among them 256, where the last input meets the
  last entry, and 509, because of single-precision rounding (`Lut3D.TapsInIff`, `FailingDims`);
- a script group in which two links lead to the same script, even from one other script, is reported as
  unordered (`ScriptGroup.Order.CalcOrder`, `SameWay`), and one without roots is not ordered at all, which
  the result does not say (`ScriptGroup.OrderedIffAcyclic`, `RootlessCyclic`, `BothWays`);
- the result of the ordering is dropped and every group runs, so a group without cycles can run a kernel
  before the one it reads from (`ScriptGroup.RightIffFeedersFirst`, `CreateAndExecute`, `TriangleRuns`); the
  compatibility library sorts the nodes the other way (`ScriptGroup.DescendingStarves`);
- a spurious wakeup lets a helper run outside a round, releases the caller early, or runs a callback twice
  (`WorkerPool.HelperSpuriousRuns`, `EarlyRelease`, `RunsTwice`, and the states `SpuriousState`, `EarlyState`
  and `SignalledState`).

## Model

| member | source | states |
|---|---|---|
| `WorkerPool.InitInv` | cpu_ref/rsCpuCore.cpp:280-306 | the pool invariant holds when `init` starts creating threads, for every pool size, with the signals set from their constructor |
| `WorkerPool.HelperStepInv` | cpu_ref/rsCpuCore.cpp:123-161 | every atomic step of every helper keeps the invariant: the count is the number of helpers that still owe the round, no wakeup is lost, each has run what it was asked |
| `WorkerPool.CallerStepInv` | cpu_ref/rsCpuCore.cpp:163-192 | so does every step of the launching thread, on the slow and the fast path |
| `WorkerPool.RunInv` | cpu_ref/rsCpuCore.cpp:123-192 | the invariant holds after any interleaving of any length |
| `WorkerPool.ReachableInv` | cpu_ref/rsCpuCore.cpp:123-306 | it holds in every reachable state |
| `WorkerPool.BarrierSafety` | cpu_ref/rsCpuCore.cpp:149-192 | whenever the caller is outside a round, each helper has completed the callback of every launch exactly once and in order, none is in or before a callback, no launch signal is up and the count is zero |
| `WorkerPool.CallerStepOwn` | cpu_ref/rsCpuCore.cpp:163-192 | every step of the caller keeps the account of what it has run itself and of the launches there were |
| `WorkerPool.RunOwn` | cpu_ref/rsCpuCore.cpp:163-192 | and so does every run |
| `WorkerPool.OwnSafety` | cpu_ref/rsCpuCore.cpp:163-192 | outside a launch the caller has itself completed the callback of every launch, fast or slow, once and in order, and the rounds of the helpers were startup and the slow launches |
| `WorkerPool.CallbackIsCurrent` | cpu_ref/rsCpuCore.cpp:149-157 | a helper inside a callback runs the callback and data of the round in progress, which the caller has not left |
| `WorkerPool.NoEarlyRelease` | cpu_ref/rsCpuCore.cpp:189-191 | the caller leaves the completion loop only when no helper owes anything, whatever woke it |
| `WorkerPool.SignalsReadyWhenUsed` | cpu_ref/rsCpuCore.cpp:126-181 | no launch signal is set or waited on before its helper has initialised it |
| `WorkerPool.HelperStepDecreases` | cpu_ref/rsCpuCore.cpp:149-157 | each helper step lowers the measure of the round |
| `WorkerPool.CallerStepDecreases` | cpu_ref/rsCpuCore.cpp:176-191 | each caller step lowers it or ends the round |
| `WorkerPool.StepsDecrease` | cpu_ref/rsCpuCore.cpp:149-192 | every enabled step of any thread does one of the two |
| `WorkerPool.NoDeadlock` | cpu_ref/rsCpuCore.cpp:176-192 | in a round some thread can always step; if the caller is parked without a notification, a helper can |
| `WorkerPool.RoundBound` | cpu_ref/rsCpuCore.cpp:149-192 | from an invariant state, a run inside one round is no longer than the measure allows |
| `WorkerPool.RoundsEnd` | cpu_ref/rsCpuCore.cpp:149-192 | no launch hangs: from any reachable state a run inside one round has bounded length under every scheduler |
| `WorkerPool.CallerSpuriousInv` | rsSignal.cpp:82-97 | a condition wait of the caller that returns without a notification does no harm, because the loop reads the count again |
| `WorkerPool.HelperSpuriousRuns` | rsSignal.cpp:82-97 | such a return in a helper outside a round makes it enter a callback if one is stored, and otherwise drives the count below zero |
| `WorkerPool.HelperSpuriousCount` | rsSignal.cpp:82-97 | in a helper that owes nothing it leaves the count one too small |
| `WorkerPool.HelperSpuriousBreaks` | rsSignal.cpp:82-97 | in any helper and any reachable state it breaks the invariant |
| `WorkerPool.EarlyRelease` | rsSignal.cpp:82-97 | then, with one other helper left, the caller leaves the round while that helper still owes |
| `WorkerPool.RunsTwice` | rsSignal.cpp:82-97 | a helper that wakes so before it is signalled runs the callback of the round twice |
| `WorkerPool.SpuriousState` | cpu_ref/rsCpuCore.cpp:149-174 | states in which that happens are reached, with one helper and one launch |
| `WorkerPool.SignalledState` | cpu_ref/rsCpuCore.cpp:149-181 | and so are those in which the callback runs twice |
| `WorkerPool.EarlyState` | cpu_ref/rsCpuCore.cpp:149-191 | and so is one in which the caller checks, a helper is done and parked, and the other owes |
| `WorkerPool.StartsUp` | cpu_ref/rsCpuCore.cpp:123-161 | a helper that starts counts itself off and parks |
| `WorkerPool.Serves` | cpu_ref/rsCpuCore.cpp:149-157 | a helper that is signalled runs the callback, counts itself off and parks |
| `SliceScheduler.StepInv` | cpu_ref/rsCpuCore.cpp:357-403 | a claim or a cell of any worker keeps the account of what has been visited and written |
| `SliceScheduler.RunInv` | cpu_ref/rsCpuCore.cpp:357-403 | and so does every interleaving of any number of workers |
| `SliceScheduler.CompletedRun` | cpu_ref/rsCpuCore.cpp:357-403 | when all workers have stopped, the claims are the first ones of which exactly as many are empty as there are workers, each cell is visited as often as they cover it, and the output is the kernel on those cells |
| `SliceScheduler.ClaimBounds` | cpu_ref/rsCpuCore.cpp:359-364 | a claim whose start does not wrap is its slice of the range, and empty if its end wraps |
| `SliceScheduler.ClaimTiles` | cpu_ref/rsCpuCore.cpp:359-364 | which cells a claim covers, and that it is empty exactly behind the last slice |
| `SliceScheduler.Slices` | cpu_ref/rsCpuCore.cpp:359-364 | the number of slices: the last starts inside the range and ends at or behind its end |
| `SliceScheduler.TiledSoFar` | cpu_ref/rsCpuCore.cpp:357-377 | while starts do not wrap, the claims cover the range from the left once each |
| `SliceScheduler.WrappedClaim` | cpu_ref/rsCpuCore.cpp:359-361 | the first claim that wraps covers cells again from the low end |
| `SliceScheduler.UpToWrap` | cpu_ref/rsCpuCore.cpp:357-377 | what is covered, and how many claims were empty, up to the first wrap |
| `SliceScheduler.EnoughRoom` | cpu_ref/rsCpuCore.cpp:349-403 | if no start that is claimed wraps, every cell is visited exactly once in every completed run |
| `SliceScheduler.TooLittleRoom` | cpu_ref/rsCpuCore.cpp:349-403 | if one does, no completed run visits every cell exactly once |
| `SliceScheduler.ExactlyOnceIffNoWrap` | cpu_ref/rsCpuCore.cpp:349-403 | exactly once if and only if the last claim of a launch starts below 2^32 |
| `SliceScheduler.NothingIffNoClaim` | cpu_ref/rsCpuCore.cpp:357-366 | a completed run calls no kernel if and only if the first claim of every worker is empty |
| `SliceScheduler.EmptyRange` | cpu_ref/rsCpuCore.cpp:357-366 | over an empty range that is so, unless one of those claims wraps |
| `SliceScheduler.SliceSizeBounds` | cpu_ref/rsCpuCore.cpp:414-447 | the slice size is at least 1; above 1 it leaves four slices for each worker and at most 16 KB for a slice |
| `SliceScheduler.SliceSizeLargest` | cpu_ref/rsCpuCore.cpp:414-447 | no larger size keeps both bounds |
| `SliceScheduler.SliceSizeIsModerate` | cpu_ref/rsCpuCore.cpp:414-447 | every slice size chosen so meets the side condition of the exact characterisation |
| `SliceScheduler.SerialLaunch` | cpu_ref/rsCpuCore.cpp:454-474 | the nested serial loops write the kernel at the cells they visit: inside the allocation, exactly those whose row, plane and array entry are in the ranges, each once |
| `SliceScheduler.SerialPlanes` | cpu_ref/rsCpuCore.cpp:462-473 | its loop over z |
| `SliceScheduler.SerialRows` | cpu_ref/rsCpuCore.cpp:463-472 | its loop over y |
| `SliceScheduler.RowsCount` | cpu_ref/rsCpuCore.cpp:463-465 | the rows of a plane are the cells of that plane and entry whose row is in the range, once each |
| `SliceScheduler.EntriesCount` | cpu_ref/rsCpuCore.cpp:461-473 | the same over all planes and entries |
| `SliceScheduler.SerialRanges` | cpu_ref/rsCpuCore.cpp:461-473 | so the serial path visits exactly the cells in the ranges, each once |
| `SliceScheduler.CellNumbers` | cpu_ref/rsCpuCore.cpp:464-465 | the offset of the source numbers the cells: each row, plane and entry has one, and no two share one |
| `SliceScheduler.WholeEntry` | cpu_ref/rsCpuCore.cpp:461-473 | a launch over all rows and planes of an entry visits its cells, from the first to the last, once each and no other |
| `SliceScheduler.SameVisitsIffOnePlane` | cpu_ref/rsCpuCore.cpp:349-475 | parallel and serial launches visit the same cells if and only if the array and z ranges are the single plane at the origin |
| `SliceScheduler.ParallelEqualsSerial` | cpu_ref/rsCpuCore.cpp:349-475 | then their outputs are equal, and every cell of the range has its kernel value |
| `SliceScheduler.SameCellsIffRowZero` | cpu_ref/rsCpuCore.cpp:379-475 | launches over x visit the cells of the serial path if and only if that visits row 0 and no other |
| `SliceScheduler.SerialRowZero` | cpu_ref/rsCpuCore.cpp:461-473 | which it does exactly for one array entry, one plane and one row, all the first |
| `SliceScheduler.CrossingIsEmpty` | cpu_ref/rsCpuCore.cpp:359-364 | a claim is empty whenever the starts pass a multiple of 2^32 |
| `SliceScheduler.ClaimsEnd` | cpu_ref/rsCpuCore.cpp:357-364 | so every launch has an empty claim for each worker, wrapped or not |
| `SliceScheduler.StepDecreases` | cpu_ref/rsCpuCore.cpp:357-377 | every step of every worker lowers a measure |
| `SliceScheduler.RunsEnd` | cpu_ref/rsCpuCore.cpp:357-403 | every run of every launch has bounded length: the callback returns |
| `SliceScheduler.Finish` | cpu_ref/rsCpuCore.cpp:357-403 | from every state a run leads to the end |
| `SliceScheduler.RunCompletes` | cpu_ref/rsCpuCore.cpp:357-403 | every run of every launch can be completed, so the results about completed runs are not empty |
| `SliceScheduler.RunLength` | cpu_ref/rsCpuCore.cpp:357-403 | without wrap-around a completed run has one step for each slice, each worker and each cell, and no run has more |
| `SliceScheduler.LastRowFails` | cpu_ref/rsCpuCore.cpp:359-364 | a launch of one row at the end of the 32-bit range, two workers and a completed run that does not visit cells exactly once |
| `SliceScheduler.TwoPlanesFail` | cpu_ref/rsCpuCore.cpp:349-475 | a launch over two planes and a completed run that visits other cells than the serial path |
| `Launching.InitInv` | cpu_ref/rsCpuCore.cpp:280-306 | the pool as `init` leaves it, and memory, meet the joint invariant |
| `Launching.SliceInv` | cpu_ref/rsCpuCore.cpp:357-403 | a claim or a kernel call inside a callback keeps it |
| `Launching.HelperThrough` | cpu_ref/rsCpuCore.cpp:149-157 | a step of a helper gets only that helper through its callback, and only when its slice loop has returned |
| `Launching.HelperInv` | cpu_ref/rsCpuCore.cpp:149-157 | every step of a helper keeps the joint invariant: whoever is through its callback has stopped claiming slices |
| `Launching.CallerKeepsThrough` | cpu_ref/rsCpuCore.cpp:163-192 | no step of the caller gets a helper through |
| `Launching.CallerInv` | cpu_ref/rsCpuCore.cpp:163-192 | every step of the caller keeps the joint invariant, on both paths, and a new launch starts from the memory the last one left |
| `Launching.StepInv` | cpu_ref/rsCpuCore.cpp:123-403 | so does every step of every thread |
| `Launching.RunInv` | cpu_ref/rsCpuCore.cpp:123-403 | and every interleaving of any length |
| `Launching.ReachableInv` | cpu_ref/rsCpuCore.cpp:123-403 | the joint invariant holds in every reachable state |
| `Launching.LaunchCompletes` | cpu_ref/rsCpuCore.cpp:163-192 | when a launch returns, on the slow or the fast path, the claims and kernel calls made are a completed run of that launch by its workers |
| `Launching.LaunchRight` | cpu_ref/rsCpuCore.cpp:163-403 | so it has visited every cell of its range exactly once, and no other, if and only if no claimed start wraps, and memory has the kernel values in the cells visited and is the same elsewhere |
| `Launching.QuietOutside` | cpu_ref/rsCpuCore.cpp:149-192 | outside a launch no thread is in a callback, and no step changes memory |
| `Launching.NoDeadlock` | cpu_ref/rsCpuCore.cpp:149-403 | while the caller is in a launch some thread can step, in its callback or outside |
| `Launching.StepDecreases` | cpu_ref/rsCpuCore.cpp:149-403 | on both paths every step of every thread, in its callback or outside, lowers a measure or ends the launch |
| `Launching.RoundBound` | cpu_ref/rsCpuCore.cpp:149-403 | from a state with the joint invariant a run inside one launch is no longer than that measure allows |
| `Launching.LaunchEnds` | cpu_ref/rsCpuCore.cpp:149-403 | no launch hangs, on either path, slices included, under any scheduler |
| `Simd.RegsRoundTrip` | cpu_ref/rsCpuIntrinsicColorMatrix.cpp:380-389 | the three register numbers put into a word come back out of it, and the opcode bits are untouched |
| `Simd.DecodesVmull` | cpu_ref/rsCpuIntrinsicColorMatrix.cpp:398-403 | the emitted word is the widening multiply by a lane that the generator means, for every pair it uses |
| `Simd.DecodesVmlal` | cpu_ref/rsCpuIntrinsicColorMatrix.cpp:391-396 | the same for multiply and accumulate |
| `Simd.DecodesVqadd` | cpu_ref/rsCpuIntrinsicColorMatrix.cpp:405-410 | the same for the saturating add to an accumulator |
| `Simd.DecodesVqaddInput` | cpu_ref/rsCpuIntrinsicColorMatrix.cpp:405-410 | and for the one that takes its operand from the expanded input |
| `Simd.SetQLanes` | cpu_ref/rsCpuIntrinsicColorMatrix.cpp:32-66 | a 32-bit lane written through a quad register reads back from the bytes of the register file |
| `Simd.DecodeConcat` | cpu_ref/rsCpuIntrinsicColorMatrix.cpp:609-636 | decoding distributes over the concatenation of code |
| `Simd.RunConcat` | cpu_ref/rsCpuIntrinsicColorMatrix.cpp:609-636 | so does execution |
| `ColorMatrix.Masks` | cpu_ref/rsCpuIntrinsicColorMatrix.cpp:237-247 | the masks are the coefficients and offsets that are not zero |
| `ColorMatrix.NarrowMasks` | cpu_ref/rsCpuIntrinsicColorMatrix.cpp:265-300 | narrowing keeps exactly the bits of rows and columns that the vector sizes have |
| `ColorMatrix.ComputeKey` | cpu_ref/rsCpuIntrinsicColorMatrix.cpp:203-311 | the key for byte inputs and outputs: masks, vector sizes, and when dot and copy-alpha are set |
| `ColorMatrix.PlanCell` | cpu_ref/rsCpuIntrinsicColorMatrix.cpp:455-480 | a coefficient starts its accumulator if it is the first of its column and adds to it otherwise |
| `ColorMatrix.PlanRow` | cpu_ref/rsCpuIntrinsicColorMatrix.cpp:455-480 | one row is planned and the others stay as they were |
| `ColorMatrix.PlanOps` | cpu_ref/rsCpuIntrinsicColorMatrix.cpp:455-480 | after all rows each cell has its operation and each column its started flag |
| `ColorMatrix.EmitRow` | cpu_ref/rsCpuIntrinsicColorMatrix.cpp:609-625 | the multiplies of a row, in order |
| `ColorMatrix.EmitAdds` | cpu_ref/rsCpuIntrinsicColorMatrix.cpp:626-636 | the saturating adds of the offsets, onto the accumulator or onto the input as the plan says |
| `ColorMatrix.Build` | cpu_ref/rsCpuIntrinsicColorMatrix.cpp:455-636 | the arithmetic part of the generated kernel for a key |
| `ColorMatrix.DecodesKernel` | cpu_ref/rsCpuIntrinsicColorMatrix.cpp:609-636 | decoded, the kernel is the sequence of multiplies and adds that the key asks for |
| `ColorMatrix.KernelRuns` | cpu_ref/rsCpuIntrinsicColorMatrix.cpp:609-636 | for whatever pixels the widened registers hold, each accumulator lane after the decoded kernel: the saturated product with the offset for a column with a coefficient in use, the offset added to the widened input, or what was there |
| `ColorMatrix.DotAgrees` | cpu_ref/rsCpuIntrinsicColorMatrix.cpp:249-256 | when dot is set, green and blue are the same product as red |
| `ColorKernel.PrefixReady` | cpu_ref/rsCpuIntrinsics_neon_ColorMatrix.S:27-41 | after the prefix the matrix, the offsets and the cleared registers are in place, and Q8 is as it was |
| `ColorKernel.LoadLeaves` | cpu_ref/rsCpuIntrinsics_neon_ColorMatrix.S:82-111 | the channels of four pixels in the low halves of D0 to D3, absent ones cleared |
| `ColorKernel.UnpackLeaves` | cpu_ref/rsCpuIntrinsics_neon_ColorMatrix.S:299-325 | the channels that are widened, the others zero, and nothing else changed |
| `ColorKernel.ArithmeticFrame` | cpu_ref/rsCpuIntrinsicColorMatrix.cpp:609-636 | the generated words write accumulators and nothing else |
| `ColorKernel.SummedIs` | cpu_ref/rsCpuIntrinsicColorMatrix.cpp:582-636 | the accumulators of a turn of the loop, in terms of the loaded pixels |
| `ColorKernel.ShrinkLeaves` | cpu_ref/rsCpuIntrinsics_neon_ColorMatrix.S:327-357 | packing, first half: each accumulator rounded, shifted and cut to 16 bits |
| `ColorKernel.NarrowLeaves` | cpu_ref/rsCpuIntrinsics_neon_ColorMatrix.S:327-357 | second half: clamped to the bytes of D0 to D3, upper halves still clear |
| `ColorKernel.DotLeaves` | cpu_ref/rsCpuIntrinsics_neon_ColorMatrix.S:359-362 | red is in green and blue too |
| `ColorKernel.PackedLeaves` | cpu_ref/rsCpuIntrinsicColorMatrix.cpp:638-660 | which channel each of D0 to D3 holds at the store, for every key |
| `ColorKernel.TurnStores` | cpu_ref/rsCpuIntrinsicColorMatrix.cpp:582-673 | the bytes that a turn stores |
| `ColorKernel.TurnReady` | cpu_ref/rsCpuIntrinsicColorMatrix.cpp:582-673 | a turn leaves the registers ready for the next |
| `ColorKernel.GroupsReady` | cpu_ref/rsCpuIntrinsicColorMatrix.cpp:582-690 | so they are before every group of every call, whatever they held at entry |
| `ColorKernel.GroupStores` | cpu_ref/rsCpuIntrinsicColorMatrix.cpp:582-690 | in every group the accumulators and the stored bytes depend on that group alone, and on Q8 at entry if nothing writes it |
| `ColorExact.SumWithin` | cpu_ref/rsCpuIntrinsicColorMatrix.cpp:778-793 | the sum of a column lies between its extremes |
| `ColorExact.TotalIs` | cpu_ref/rsCpuIntrinsicColorMatrix.cpp:582-636 | what a computed column holds in terms of the loaded pixels: row 3 is missing under copy-alpha, and an unused column takes pairs of pixels, or what the accumulator held |
| `ColorExact.RightIff` | cpu_ref/rsCpuIntrinsicColorMatrix.cpp:582-636 | for all calls, entry registers, groups and pixels a computed column is the saturated product, if and only if: it is in use and (alpha is widened, or does not enter it, or the offset saturates it), or it has only an offset and no such input channel, or it has neither and is not red |
| `ColorExact.MaskedWrong` | cpu_ref/rsCpuIntrinsicColorMatrix.cpp:587-594 | pixels that show the lost alpha row |
| `ColorExact.WrongUnless` | cpu_ref/rsCpuIntrinsicColorMatrix.cpp:582-636 | registers and pixels at which a column is wrong whenever the condition fails |
| `ColorExact.Gap` | cpu_ref/rsCpuIntrinsics_neon_ColorMatrix.S:327-357 | values that the cut to 16 bits spoils come in stretches longer than one row of a matrix can step over |
| `ColorExact.PackIff` | cpu_ref/rsCpuIntrinsics_neon_ColorMatrix.S:327-357 | a packed byte is the clamped sum for all pixels if and only if the cut spoils no value between the extremes |
| `ColorExact.SmallSums` | cpu_ref/rsCpuIntrinsics_neon_ColorMatrix.S:327-357 | it is while the shifted extremes fit 16 bits |
| `ColorExact.PackedChannelRight` | cpu_ref/rsCpuIntrinsicColorMatrix.cpp:638-660 | a packed channel is the clamped product under the two conditions on its column |
| `ColorExact.PackedChannelIff` | cpu_ref/rsCpuIntrinsicColorMatrix.cpp:638-660 | for a column that is computed right, the stored channel is right for all pixels if and only if packing is |
| `ColorExact.LeftoverWrong` | cpu_ref/rsCpuIntrinsicColorMatrix.cpp:638-660 | a channel from a red column that nothing goes into is stored wrong |
| `ColorExact.OffsetWrong` | cpu_ref/rsCpuIntrinsicColorMatrix.cpp:638-660 | a channel from a column of the input with an offset alone is stored wrong, whatever the offset |
| `ColorExact.MaskedIff` | cpu_ref/rsCpuIntrinsicColorMatrix.cpp:638-660 | where copy-alpha loses the alpha row, a channel is stored right if and only if the other rows are packed right and the alpha row shows in no byte |
| `ColorExact.SameEnd` | cpu_ref/rsCpuIntrinsicColorMatrix.cpp:638-660 | an alpha coefficient beyond 1 that shows in no byte leaves all products clamped at the same end |
| `ColorExact.HiddenIffWhen` | cpu_ref/rsCpuIntrinsicColorMatrix.cpp:638-660 | the alpha row shows in no byte if and only if its coefficient is 0, or is 1 or -1 and every product of the colors is clamped or on the edge of a byte, or all products are packed to one byte |
| `ColorExact.StoredIff` | cpu_ref/rsCpuIntrinsicColorMatrix.cpp:638-660 | for every matrix and every packed channel, the exact condition under which the stored byte is the clamped product for all pixels and all registers at entry |
| `ColorExact.CopiedAlphaRight` | cpu_ref/rsCpuIntrinsicColorMatrix.cpp:258-261 | copied alpha is the product for every input, with or without an alpha channel |
| `ColorExact.DotAlphaWrong` | cpu_ref/rsCpuIntrinsicColorMatrix.cpp:638-641 | pixels whose alpha the dot path stores wrong |
| `ColorExact.DotAlphaIff` | cpu_ref/rsCpuIntrinsicColorMatrix.cpp:638-641 | with dot and without copy-alpha the stored alpha is right for all pixels if and only if the input has no alpha and no coefficient for it is positive |
| `ColorExact.AlphaToRedFails` | cpu_ref/rsCpuIntrinsicColorMatrix.cpp:587-594 | adding alpha to red under copy-alpha is computed wrong |
| `ColorExact.RedConstantFails` | cpu_ref/rsCpuIntrinsicColorMatrix.cpp:631-634 | so is a constant red |
| `ColorExact.NoRedFails` | cpu_ref/rsCpuIntrinsics_neon_ColorMatrix.S:36-40 | and a red that is dropped |
| `ColorExact.GrayFails` | cpu_ref/rsCpuIntrinsicColorMatrix.cpp:638-641 | and alpha halved beside equal colors |
| `ColorExact.GlareWraps` | cpu_ref/rsCpuIntrinsics_neon_ColorMatrix.S:354-357 | white is packed to black when two large coefficients meet |
| `ColorScript.Script.constructor` | cpu_ref/rsCpuIntrinsicColorMatrix.cpp:948-955 | a new script has no kernel |
| `ColorScript.Script.PreLaunch` | cpu_ref/rsCpuIntrinsicColorMatrix.cpp:887-940 | a kernel is rebuilt only when the key changed, and the one that is there computes each column of the present coefficients right exactly under its condition |
| `ColorScript.StoreGroup` | cpu_ref/rsCpuIntrinsics_neon_ColorMatrix.S:210-227 | four pixels of the row take the bytes of D0 to D3 in the stored channels, the others stay |
| `ColorScript.Script.RunGroup` | cpu_ref/rsCpuIntrinsicColorMatrix.cpp:582-660 | executing the stored words between the chunks yields the stored bytes of the group |
| `ColorScript.Script.Turn4` | cpu_ref/rsCpuIntrinsicColorMatrix.cpp:582-673 | the same with its loads and stores, also when input and output are one buffer |
| `ColorScript.Script.RunKernel` | cpu_ref/rsCpuIntrinsicColorMatrix.cpp:856-858 | every pixel of the groups is done, and no other is touched |
| `ColorScript.Script.RunRow` | cpu_ref/rsCpuIntrinsicColorMatrix.cpp:838-885 | with generated code the first multiple of four pixels is done and the rest left as it was, so a row is written to its end exactly if its length is one; under the conditions every pixel is its product, and the bytes that are no channels are accounted for; without it every pixel is mapped |
| `ColorScript.DoneRight` | cpu_ref/rsCpuIntrinsicColorMatrix.cpp:838-885 | under the conditions of its channels, which are exact, pixel x that is done is in every channel the product of pixel x of the row with the matrix, rounded, shifted and clamped |
| `ColorScript.LaneIs` | cpu_ref/rsCpuIntrinsics_neon_ColorMatrix.S:82-87 | lane e of a group is pixel e of its four pixels |
| `ColorScript.SumIsDot` | cpu_ref/rsCpuIntrinsicColorMatrix.cpp:838-885 | so the sum of a lane is the product of that pixel with the column |
| `ColorScript.GroupBeyond` | cpu_ref/rsCpuIntrinsicColorMatrix.cpp:663-675 | three channels are stored as four, with the alpha of the input or 0; with fewer, the other bytes stay |
| `ColorScript.ChannelIff` | cpu_ref/rsCpuIntrinsicColorMatrix.cpp:579-660 | a channel that is packed, copied or dropped is right for all pixels and registers if and only if its condition holds |
| `ObjectLifetime.SurvivorsSupported` | rsObjectBase.cpp:94-115 | the survivors hold each other up: each has a user, a root, a pending reference or a member of another survivor |
| `ObjectLifetime.LeftSupported` | rsObjectBase.cpp:94-155 | whatever is left after a drop, with a right list and right counts, was held up before it, so nothing outlives its last holder |
| `ObjectLifetime.ExactlySurvivors` | rsObjectBase.cpp:94-155 | a drop that keeps the survivors leaves exactly them |
| `ObjectLifetime.LastReference` | rsObjectBase.cpp:145-155 | an object that loses its last reference and has no user is in no set that holds itself up |
| `ObjectLifetime.UnlinkLinked` | rsObjectBase.cpp:191-210 | unlinking any member of the doubly linked list leaves a correct list of the others in their order |
| `ObjectLifetime.PushLinked` | rsObjectBase.cpp:176-189 | adding at the head gives a correct list with the new object first |
| `ObjectLifetime.Context.constructor` | rsContext.cpp:511 | an empty context is sound |
| `ObjectLifetime.Context.AddRoot` | rsObjectBase.h:96-98 | a new reference outside the objects is NULL and keeps the context sound |
| `ObjectLifetime.Context.Create` | rsObjectBase.cpp:176-189 | a new object is listed first with both counts zero, and the others keep everything but links |
| `ObjectLifetime.Context.Remove` | rsObjectBase.cpp:191-210 | the link updates of `remove` are the unlinking of the list model |
| `ObjectLifetime.Context.DecSysRef` | rsObjectBase.cpp:145-155 | it deletes exactly on the last count without a user, touches only live objects, keeps every set that holds itself up, and leaves counts equal to references |
| `ObjectLifetime.Context.CheckDelete` | rsObjectBase.cpp:94-115 | deletes exactly an object with both counts zero, and cascades soundly |
| `ObjectLifetime.Context.Release` | rsObjectBase.h:121-144 | the member destructors drop every reference the object held, and terminate |
| `ObjectLifetime.Context.DropSlot` | rsObjectBase.h:139-144 | what is left after a slot drops its value is exactly the survivors |
| `ObjectLifetime.Context.RefClear` | rsObjectBase.h:139-144 | the slot is NULL, exactly the survivors remain, and no other slot changes |
| `ObjectLifetime.Context.RefSet` | rsObjectBase.h:125-133 | `set` leaves its target alive if and only if it is NULL, the value already held, or survives the clearing; then the slot holds it and nothing else changed |
| `ObjectLifetime.Context.Fill` | rsObjectBase.h:100-112 | a NULL slot takes a reference and counts it |
| `ObjectLifetime.Context.IncSysRef` | rsObjectBase.cpp:82-85 | one more reference is counted and pending |
| `ObjectLifetime.Context.RsrSetObject` | rsScriptC_Lib.cpp:137-148 | the slot holds the new object, which always survives because it is counted first; exactly the survivors remain |
| `ObjectLifetime.Context.CountThenDrop` | rsScriptC_Lib.cpp:139-146 | counting the source before dropping the old value keeps it |
| `ObjectLifetime.Context.Settle` | rsScriptC_Lib.cpp:147 | the pending reference becomes the value of the slot, and counts equal references again |
| `ObjectLifetime.Context.IncUserRef` | rsObjectBase.cpp:77-80 | one more user |
| `ObjectLifetime.Context.DecUserRef` | rsObjectBase.cpp:117-134 | deletes exactly with the last user of an object without references, and then exactly the survivors remain |
| `ObjectLifetime.Context.ZeroUserRef` | rsObjectBase.cpp:136-143 | deletes exactly an object without references, and keeps what the roots anchor |
| `ObjectLifetime.Context.ZeroAllUserRef` | rsObjectBase.cpp:212-229 | the teardown walk, restarted after each delete, never follows a deleted object, terminates, and leaves exactly what roots and cycles anchor, with no users |
| `ObjectLifetime.NothingAnchored` | rsObjectBase.cpp:212-229 | without roots and cycles that is nothing |
| `ObjectLifetime.RaisedSurvivors` | rsScriptC_Lib.cpp:139-142 | counting a pending reference does not change what survives |
| `ObjectLifetime.ChainSound` | rsObjectBase.h:125-133 | a chain of three objects is a sound heap |
| `ObjectLifetime.SetDeletesItsTarget` | rsObjectBase.h:125-133 | in it, setting the first member to the last object deletes that object first |
| `ObjectLifetime.HolderGoes` | rsObjectBase.h:139-144 | no outcome of a drop with a right list and right counts has the object that holds the slot, if that is no survivor |
| `ObjectLifetime.RingSound` | rsObjectBase.h:139-144 | two objects that hold each other are a sound heap |
| `ObjectLifetime.ClearDeletesItsHolder` | rsObjectBase.h:139-144 | in it, clearing a member deletes both, the object whose member is being cleared too: the empty heap is the one outcome with a right list and right counts |
| `GlyphCache.FreshApart` | rsFont.cpp:844-858 | space handed out by a line overlaps nothing in use and is inside the texture |
| `GlyphCache.HoldsOutside` | rsFont.cpp:454-471 | a bitmap stays in the texture if only bytes apart from it change |
| `GlyphCache.CachedKept` | rsFont.cpp:416-491 | caching a bitmap leaves every cached one intact |
| `GlyphCache.GlyphsKept` | rsFont.cpp:416-491 | and every valid glyph |
| `GlyphCache.QuadsKept` | rsFont.cpp:416-491 | and what every queued quad will show |
| `GlyphCache.ValidGlyphs` | rsFont.cpp:239-282 | a valid glyph is inside the texture, apart from all others, and its texels are its bitmap |
| `GlyphCache.DrawnIsQueued` | rsFont.cpp:402-413 | drawing the queue shows what was queued |
| `GlyphCache.CulledHidden` | rsFont.cpp:680-682 | a quad is dropped only if none of its pixels is on the surface |
| `GlyphCache.CulledIffApart` | rsFont.cpp:680-682 | and exactly if it does not even touch the surface |
| `GlyphCache.CharacterLit` | rsFont.cpp:93-112 | every pixel of a character that is on the surface is shown, at the bearing from the pen |
| `GlyphCache.LitCharacter` | rsFont.cpp:93-112 | and whatever is shown of it is one of its pixels |
| `GlyphCache.PenNear` | rsFont.cpp:216 | the pen is behind the sum of the advances by less than a pixel for each character |
| `GlyphCache.TextLitIff` | rsFont.cpp:160-224 | on the surface exactly the pixels of the characters asked for are shown |
| `GlyphCache.FontState.constructor` | rsFont.cpp:546-577 | the cache lines tile the texture and nothing is cached |
| `GlyphCache.FontState.IssueDrawCommand` | rsFont.cpp:648-666 | drawing moves the queue to the screen and leaves the total output as it was |
| `GlyphCache.FontState.FlushAllAndInvalidate` | rsFont.cpp:402-413 | the queue is drawn before glyphs become invalid and lines empty; the output is unchanged |
| `GlyphCache.FontState.FitBitmap` | rsFont.cpp:427-434 | the first line with room takes the bitmap; failure means no line has room |
| `GlyphCache.FontState.CopyBitmap` | rsFont.cpp:454-471 | the bitmap is in the texture at its place and no other byte changed |
| `GlyphCache.FontState.TryCache` | rsFont.cpp:427-471 | succeeds exactly if some line has room, and keeps all that was cached or queued |
| `GlyphCache.FontState.CacheBitmap` | rsFont.cpp:416-491 | succeeds exactly for bitmaps that fit an empty cache, flushing at most once; the output is unchanged |
| `GlyphCache.FontState.UpdateGlyphCache` | rsFont.cpp:239-282 | the glyph becomes valid exactly if it can be rendered and fits |
| `GlyphCache.FontState.CacheRendered` | rsFont.cpp:257-282 | the same for a glyph that has been loaded |
| `GlyphCache.FontState.GetCachedUTFChar` | rsFont.cpp:225-294 | returns the glyph of the character, cached again if a flush invalidated it |
| `GlyphCache.FontState.AppendMeshQuad` | rsFont.cpp:668-723 | adds the glyph to the output unless it is outside the surface, drawing the queue when it is full |
| `GlyphCache.FontState.RenderChar` | rsFont.cpp:187-222 | one character adds its bitmap and its advance, whatever had to be flushed |
| `GlyphCache.FontState.RenderUTF` | rsFont.cpp:161-223 | a text adds its bitmaps in order and place |
| `GlyphCache.FontState.RenderText` | rsFont.cpp:749-785 | the screen gains exactly what drawing each character without a cache would show, and so, on the surface, exactly the pixels of the characters asked for |
| `CommandRpc.ExpandOk` | spec.l:23-45 | with lengths inserted parameters have scalar sizes, and each pointer of one level is followed by its length |
| `CommandRpc.HasInlineDataPointers` | rsg_generator.c:161-185 | decides exactly the entries without result or sync whose pointers are all const and single, and that have one |
| `CommandRpc.OffsetOrder` | rsg_generator.c:77-99 | fields of a command struct are in order and disjoint |
| `CommandRpc.OffsetLeast` | rsg_generator.c:77-99 | each field starts at the first multiple of its size behind the one before |
| `CommandRpc.StructLeast` | rsg_generator.c:77-99 | the struct ends at the first multiple of its largest field |
| `CommandRpc.FieldInside` | rsg_generator.c:77-99 | and inside it |
| `CommandRpc.StructBounds` | rsg_generator.c:77-99 | its size is at most 8 bytes a parameter, and not zero |
| `CommandRpc.FrameFits` | rsThreadIO.cpp:51-110 | header and payload of every command fit the 2 KB buffers of both sides |
| `CommandRpc.FieldBack` | rsg_generator.c:293-310 | every field the player reads is what the sender stored |
| `CommandRpc.ReplyAgreement` | rsg_generator.c:311-328 | the sender waits exactly when the player replies, for exactly as many bytes, for every entry and arguments |
| `CommandRpc.PointerRoundTrip` | rsg_generator.c:473-496 | the data behind a pointer arrives whole, inlined or not, of any length |
| `CommandRpc.PointersWait` | rsg_generator.c:311-328 | a frame that carries client pointers holds the client until it has been played |
| `CommandRpc.ThreadIO.constructor` | rsThreadIO.cpp:51-64 | an empty queue and a send buffer |
| `CommandRpc.ThreadIO.Copy` | rsg_generator.c:298 | `memcpy` into the send buffer, within it |
| `CommandRpc.ThreadIO.SumLengths` | rsg_generator.c:270-278 | the total of the lengths of inlined data |
| `CommandRpc.ThreadIO.CoreHeader` | rsThreadIO.cpp:51-60 | command and size are at the start of the buffer |
| `CommandRpc.ThreadIO.Send` | rsg_generator.c:268-328 | one whole frame that carries the arguments and the data goes behind the queue, and the sender waits for the reply it is due |
| `CommandRpc.ThreadIO.Fill` | rsg_generator.c:293-310 | the loop over the parameters makes a payload that carries them |
| `CommandRpc.ThreadIO.Put` | rsg_generator.c:293-310 | one parameter more, the earlier ones kept |
| `CommandRpc.ThreadIO.PutData` | rsg_generator.c:297-302 | the data of one pointer goes behind that of the earlier ones |
| `CommandRpc.ThreadIO.PutAt` | rsg_generator.c:293-310 | a write into the payload leaves the header and the rest of the payload |
| `CommandRpc.FrontIsFirst` | rsThreadIO.cpp:137-143 | reading a header and as many bytes as it says gives the first frame and leaves the rest |
| `CommandRpc.CallInv` | rsg_generator.c:268-328 | a call of any entry keeps the two sides in sync |
| `CommandRpc.DestroySilent` | rsContext.cpp:921-943 | the hand-written destroy frame is one that the player does not answer |
| `CommandRpc.DestroyInv` | rsContext.cpp:921-943 | sent at any time, even while the client waits, it keeps the two sides in sync |
| `CommandRpc.PlayFirst` | rsThreadIO.cpp:135-161 | a frame can be played exactly when one is pending, and it is the first |
| `CommandRpc.PlayInv` | rsThreadIO.cpp:135-161 | playing it keeps the two sides in sync and leaves the others pending |
| `CommandRpc.NextInv` | rsThreadIO.cpp:104-164 | every event does |
| `CommandRpc.RunSafe` | rsThreadIO.cpp:104-164 | in every state of every run the queue is a sequence of whole frames and replies match what is waited for |
| `CommandRpc.WaitEnds` | rsThreadIO.cpp:90-98 | a waiting client has a frame ahead; no event but a reply releases it, and each played frame brings it nearer |
| `ScriptGroup.ScriptsOk` | rsScriptGroup.cpp:104-114 | the nodes are the scripts of the kernels, each once |
| `ScriptGroup.KernelsOk` | rsScriptGroup.cpp:104-114 | each has exactly its kernels |
| `ScriptGroup.OutputsOk` | rsScriptGroup.cpp:118-135 | exactly the links from it |
| `ScriptGroup.InputsOk` | rsScriptGroup.cpp:118-135 | and exactly the links to it |
| `ScriptGroup.FindNode` | rsScriptGroup.cpp:46-57 | finds the node of a script if and only if there is one |
| `ScriptGroup.MakeNodes` | rsScriptGroup.cpp:103-114 | the first loop of `calcOrder` makes those nodes |
| `ScriptGroup.AddLinks` | rsScriptGroup.cpp:116-135 | the second gives them their links |
| `ScriptGroup.WalkNode` | rsScriptGroup.cpp:59-79 | the walk below a node, as a function: it marks at least that node, so it ends on every graph |
| `ScriptGroup.NodeWalked` | rsScriptGroup.cpp:59-79 | it never lowers an order; if it meets no mark, it explored all it reached, each target above its source; if it meets one, two links that the root reaches meet |
| `ScriptGroup.OutputsWalked` | rsScriptGroup.cpp:65-77 | the same for the outputs that are left of a node |
| `ScriptGroup.RootWalked` | rsScriptGroup.cpp:142-147 | a root meets no mark if and only if no two links it reaches meet |
| `ScriptGroup.RootsWalked` | rsScriptGroup.cpp:139-148 | what the walks of all roots so far have found |
| `ScriptGroup.OrderIs` | rsScriptGroup.cpp:139-148 | no walk meets a mark if and only if no root reaches two links that meet; then the order rises along every link if and only if the graph has no cycle |
| `ScriptGroup.Order.constructor` | rsScriptGroup.cpp:139-148 | all orders start at zero |
| `ScriptGroup.Order.CalcOrderRecurse` | rsScriptGroup.cpp:59-79 | leaves exactly the marks, orders and result of that walk |
| `ScriptGroup.Order.VisitOutputs` | rsScriptGroup.cpp:65-77 | its loop, over all outputs |
| `ScriptGroup.Order.VisitOutput` | rsScriptGroup.cpp:65-77 | one output: it stops at a marked target, or walks below it |
| `ScriptGroup.Order.FindTarget` | rsScriptGroup.cpp:66-72 | the node at the other end of an output |
| `ScriptGroup.Order.CalcOrder` | rsScriptGroup.cpp:139-148 | leaves exactly the orders of all those walks, whether it succeeds or not; true if and only if no root reaches two links that meet; then the order rises along every link if and only if the graph has no cycle |
| `ScriptGroup.IncreasingAcyclic` | rsScriptGroup.cpp:139-148 | a rising order excludes cycles |
| `ScriptGroup.AllReached` | rsScriptGroup.cpp:139-148 | without cycles the roots reach every node |
| `ScriptGroup.OrderedIffAcyclic` | rsScriptGroup.cpp:139-148 | once all roots succeeded, the order rises if and only if there is no cycle |
| `ScriptGroup.RootlessCyclic` | rsScriptGroup.cpp:139-148 | a group without roots has a cycle, which goes unreported |
| `ScriptGroup.RootExplored` | rsScriptGroup.cpp:142-147 | a root explored without a collision reaches no two links that meet |
| `ScriptGroup.Clash` | rsScriptGroup.cpp:73-75 | a target seen before is entered by two links that the root reaches |
| `ScriptGroup.ShareAllocation` | rsScriptGroup.cpp:241-245 | later outputs with the same source get the same allocation, and no other link changes |
| `ScriptGroup.AllocateOutputs` | rsScriptGroup.cpp:229-246 | all outputs of a node are allocated, sharing exactly by source |
| `ScriptGroup.AllocateLinks` | rsScriptGroup.cpp:227-247 | every link has an allocation, and two share one if and only if they share their source kernel |
| `ScriptGroup.FindInput` | rsScriptGroup.cpp:300-305 | the last link into the kernel, of all links of the group |
| `ScriptGroup.FindOutput` | rsScriptGroup.cpp:313-318 | an output link of the kernel exactly if it has one |
| `ScriptGroup.RunKernel` | rsScriptGroup.cpp:295-327 | a kernel reads the last link into it or its bound input, whatever is there, and writes its link or its bound output |
| `ScriptGroup.RunNode` | rsScriptGroup.cpp:291-329 | the kernels of a node run behind those that ran before |
| `ScriptGroup.Execute` | rsScriptGroup.cpp:291-329 | for any arrangement of the nodes, memory is what running their kernels one after the other makes of it |
| `ScriptGroup.OneShows` | rsScriptGroup.cpp:295-327 | a kernel that was given what it should be shows its value in all its links, or in its bound output |
| `ScriptGroup.OthersShow` | rsScriptGroup.cpp:295-327 | and no other kernel stops showing its own |
| `ScriptGroup.CallsRight` | rsScriptGroup.cpp:291-329 | if every kernel comes after the one it reads from, every call is given what it should be and every kernel shows the value that solves the group |
| `ScriptGroup.Unwritten` | rsScriptGroup.cpp:291-329 | a link whose source has not run is as it was |
| `ScriptGroup.ReadsUnwritten` | rsScriptGroup.cpp:291-329 | a kernel that comes before the one it reads from is given what the memory of the link held before |
| `ScriptGroup.RightIffFeedersFirst` | rsScriptGroup.cpp:291-329 | whatever kernels compute, whatever is bound and whatever memory holds, every call is given what it should be if and only if every kernel comes after the one it reads from |
| `ScriptGroup.Solvable` | rsScriptGroup.cpp:291-329 | then there are values that solve the group |
| `ScriptGroup.FindPlace` | rsScriptGroup.cpp:82-88 | the place of a node among sorted ones, behind those of the same order |
| `ScriptGroup.SortNodes` | rsScriptGroup.cpp:183-188 | all nodes in ascending order, and which arrangement that is |
| `ScriptGroup.Locate` | rsScriptGroup.cpp:291-329 | every kernel that runs is one of an arranged node, and runs behind the kernels of the nodes before |
| `ScriptGroup.SequenceHas` | rsScriptGroup.cpp:291-329 | exactly the kernels of the group run |
| `ScriptGroup.IncreasingFeeds` | rsScriptGroup.cpp:291-329 | if the order rises along every link, every kernel comes after the one it reads from, however nodes of the same order are arranged |
| `ScriptGroup.FedInOrder` | rsScriptGroup.cpp:291-329 | if every kernel comes after the one it reads from, no link that is read goes to a node of smaller order |
| `ScriptGroup.DescendingStarves` | rsScriptGroup.cpp:90-99 | with the comparator of the compatibility library, which sorts the other way, a kernel reads any link that leads to a larger order before it is written |
| `ScriptGroup.Create` | rsScriptGroup.cpp:102-251 | making nodes and links, ordering, sorting and allocating, together, for every group |
| `ScriptGroup.AllShow` | rsScriptGroup.cpp:291-329 | after executing an ascending arrangement every kernel shows its value, if every kernel comes after the one it reads from |
| `ScriptGroup.CreateAndExecute` | rsScriptGroup.cpp:102-331 | every group runs, since the result of the ordering is dropped; every kernel shows the value that solves the group if every kernel comes after the one it reads from, which is so if the order rises, and that if the ordering succeeds on a group without cycles |
| `ScriptGroup.Shapes` | rsScriptGroup.cpp:102-148 | groups of the three shapes below |
| `ScriptGroup.SameWay` | rsScriptGroup.cpp:65-77 | two links from one script to another: no cycle, but the root reaches two links that meet |
| `ScriptGroup.BothWays` | rsScriptGroup.cpp:139-148 | two scripts that feed each other: no root, and so nothing is reported |
| `ScriptGroup.TriangleOrder` | rsScriptGroup.cpp:59-79 | a script that feeds two, the second of which feeds the first: both get the same order, and the walk stops at the link between them |
| `ScriptGroup.TriangleRuns` | rsScriptGroup.cpp:225-329 | that group has no cycle, but runs the one that is fed before the one that feeds it, and so it reads a link that nobody has written |
| `Streams.Ranges` | rsStream.h:94-134 | the numbers of each kind are those that its bits can hold |
| `Streams.OStream.constructor` | rsStream.cpp:54-59 | an empty stream |
| `Streams.OStream.GrowSize` | rsStream.cpp:107-113 | twice the room, the same contents |
| `Streams.OStream.Put` | rsStream.h:103-106 | bytes go to the position, which moves behind them |
| `Streams.OStream.Seat` | rsStream.h:99-102 | the position is aligned and there is room for a number, with what was written kept |
| `Streams.OStream.AddNum` | rsStream.h:94-132 | the number reads back from where the stream was, for every width, and nothing written before changes |
| `Streams.OStream.Align` | rsStream.h:87-92 | the position is the next multiple |
| `Streams.OStream.AddByteArray` | rsStream.cpp:65-72 | any number of bytes reads back |
| `Streams.OStream.AddString` | rsStream.cpp:93-101 | fits if and only if one doubling is enough, which lengths and position decide; then it reads back |
| `Streams.OStream.GrowOnce` | rsStream.cpp:95-97 | one doubling if the bytes do not fit |
| `Streams.OStream.Append` | rsStream.cpp:70-71 | bytes that fit read back |
| `Streams.OStream.Add` | rsStream.h:94-136 | any item reads back as itself, at the position behind which the stream is then |
| `Streams.OStream.AddAll` | rsStream.h:94-136 | a sequence of items is logged item by item, and succeeds if no string is longer than the buffer was |
| `Streams.ReadItemPrefix` | rsStream.h:31-62 | what has been read does not depend on what is written later |
| `Streams.ReplayLog` | rsStream.h:31-132 | reading with the kinds that were written, in order, gives the items that were written and ends where they ended |
| `Streams.NumAt` | rsStream.h:31-59 | a logged number reads back from its own position |
| `Streams.StrAt` | rsStream.cpp:46-51 | so does a string |
| `Streams.ShortStringFits` | rsStream.cpp:93-101 | a string no longer than the buffer fits |
| `Streams.LongStringOverruns` | rsStream.cpp:93-101 | 29 bytes in a new stream of 16 do not, 28 do |
| `Streams.IStream.constructor` | rsStream.cpp:24-28 | a stream at the start of its data |
| `Streams.IStream.LoadNum` | rsStream.h:31-59 | aligned little-endian reads, with the position behind them |
| `Streams.IStream.LoadString` | rsStream.cpp:46-51 | a length and as many bytes |
| `FileA3D.LayoutOne` | rsFileA3D.cpp:379-385 | index entries stay aligned, in order, disjoint and inside the data |
| `FileA3D.StoreOne` | rsFileA3D.cpp:379-385 | an object more leaves the earlier ones readable |
| `FileA3D.ObjectBack` | rsFileA3D.cpp:379-385 | from the offset of its entry an object reads back item by item, and ends at its length |
| `FileA3D.HeaderItemsOk` | rsFileA3D.cpp:321-341 | what goes into the header fits the fields it is written to |
| `FileA3D.HeaderStart` | rsFileA3D.cpp:69-75 | versions, flags and entry count read back |
| `FileA3D.HeaderEntry` | rsFileA3D.cpp:76-88 | entry by entry the index reads back, for either width of offsets |
| `FileA3D.Writer.constructor` | rsFileA3D.cpp:373-376 | nothing to write yet |
| `FileA3D.Writer.AppendToFile` | rsFileA3D.cpp:369-386 | the object is stored behind the others with an entry that says where; NULL changes nothing; it succeeds if no string is longer than the buffer |
| `FileA3D.Writer.WriteFile` | rsFileA3D.cpp:304-357 | an image is made exactly if something was written, and it is magic, header and data with their sizes |
| `FileA3D.ParseEntry` | rsFileA3D.cpp:76-88 | one entry, or none if the data ends |
| `FileA3D.ParseEntries` | rsFileA3D.cpp:75-91 | all entries of a header that was written |
| `FileA3D.ParseHeader` | rsFileA3D.cpp:69-92 | a header that was written parses to its versions and index |
| `FileA3D.Load` | rsFileA3D.cpp:103-155 | wrong magic is rejected, and an image that was written loads as what was written |
| `FileA3D.ImageParts` | rsFileA3D.cpp:343-357 | an image splits at the places the loader computes |
| `FileA3D.Reload` | rsFileA3D.cpp:103-357 | a file that was written loads with the same index and data, and every object appended to it reads back from its entry |
| `Elements.UnfoldDistinct` | rsElement.cpp:253-319 | in a cache without duplicates, equal trees are the same object |
| `Elements.ConsedIffDistinct` | rsElement.cpp:253-319 | comparing one level by identity is the same as comparing whole trees |
| `Elements.UnfoldKept` | rsElement.cpp:221-319 | creating elements does not change what the others describe |
| `Elements.SameFields` | rsElement.cpp:262-282 | the comparison loop, by length and as C strings, decides equality with fields whose stored names have no zero byte |
| `Elements.ElementState.constructor` | rsElement.cpp:221-251 | an empty cache has no duplicates |
| `Elements.ElementState.CreateLeaf` | rsElement.cpp:221-251 | returns the element that matches, or a new canonical one; duplicates appear if and only if the component asked for has no match but its canonical form does |
| `Elements.ElementState.FindLeaf` | rsElement.cpp:226-238 | finds a match if and only if there is one |
| `Elements.ElementState.CreateStruct` | rsElement.cpp:253-319 | returns the element with those fields, or a new one with the names cut at a zero byte; duplicates appear if and only if the fields asked for have no match but the cut ones do |
| `Elements.ElementState.FindStruct` | rsElement.cpp:259-289 | finds those fields if and only if an element has them |
| `Elements.ElementState.Insert` | rsElement.cpp:241-250 | a new object at the end of the cache, and nothing else changes |
| `Elements.ElementState.PreDestroy` | rsElement.cpp:37-44 | removes exactly that element |
| `Elements.ElementState.CreateFromStream` | rsElement.cpp:116-163 | returns an element that describes exactly the tree in the bytes, or none exactly if they hold none; the cache stays free of duplicates |
| `Elements.ElementState.LoadFields` | rsElement.cpp:143-148 | the fields of a struct, in order |
| `Elements.ElementState.LoadNext` | rsElement.cpp:143-148 | one field more |
| `Elements.ElementState.LoadField` | rsElement.cpp:144-147 | name, up to a zero byte, array size and element of a field |
| `Elements.LoadHead` | rsElement.cpp:117-129 | the part before the fields; another class is refused |
| `Elements.LoadComponent` | rsComponent.cpp:259-267 | the component, made canonical |
| `Elements.ReadHead` | rsElement.cpp:117-129 | a head that is read is canonical and inside the data |
| `Elements.ReadComponent` | rsComponent.cpp:259-267 | so is a component |
| `Elements.ReadTree` | rsElement.cpp:116-163 | reading an element always advances and stays inside the data, so it ends on any input |
| `Elements.ReadFields` | rsElement.cpp:143-148 | as many fields as asked for |
| `Elements.ReadBranch` | rsElement.cpp:144-147 | a field advances |
| `Elements.LeafDistinct` | rsElement.cpp:241-250 | a new leaf is no duplicate if and only if its canonical form is not there |
| `Elements.StructDistinct` | rsElement.cpp:292-318 | a new struct is no duplicate if and only if its fields, with names cut, are not there |
| `Elements.CStrPlain` | rsElement.cpp:274-278 | what C sees of a name is all of it if and only if it has no zero byte |
| `Elements.ZeroInName` | rsElement.cpp:253-319 | a name with a zero byte in it has no match, however often it is asked for |
| `Elements.NotCanonicalTwice` | rsComponent.cpp:29-100 | 5-6-5 pixels asked for twice with vector size 1 give two equal elements |
| `Elements.ComponentFormat` | rsComponent.cpp:252-257 | a component is a byte each for type, kind and normalization, and then the vector size |
| `Elements.CanonIs` | rsComponent.cpp:29-100 | packed pixel types get a vector size of one for each of their channels, which have 16 bits together, and are normalized; all else is kept |
| `Elements.HeadBack` | rsElement.cpp:100-108 | the head that was written reads back |
| `Elements.TreeBack` | rsElement.cpp:100-114 | what an element of any depth wrote describes it |
| `Elements.TreeSmall` | rsElement.cpp:116-163 | whatever bytes are read, types and kinds fit a byte |
| `Elements.SmallIffWritable` | rsComponent.cpp:252-257 | what an element describes fits if and only if all components it reaches do |
| `Elements.ReferenceNotWritable` | rsComponent.cpp:252-257 | reference types do not |
| `Elements.SameObject` | rsElement.cpp:100-163 | reading it in a context that still has it gives the identical object, if and only if the types and kinds it is made of fit a byte |
| `Elements.WriteAndRead` | rsElement.cpp:100-163 | `createFromStream` on what `serialize` wrote returns that object exactly then, and keeps the cache free of duplicates in any case |
| `PackedData.TypeSizes` | rsComponent.cpp:92-178 | numbers have powers of two as sizes, signed and unsigned the same, and matrices are squares of floats |
| `PackedData.HigherPow2Is` | rsCppUtils.h:225-236 | a power of two, at least the value and less than twice it |
| `PackedData.PaddedLanes` | rsComponent.cpp:184-185 | of the vector sizes only three is padded, to four |
| `PackedData.PaddedBits` | rsComponent.cpp:184-185 | a three-vector takes 4/3 of its packed bits, and anything else just those |
| `PackedData.BitsFacts` | rsComponent.cpp:184-185 | sizes are whole bytes, and unpadded is at most padded |
| `PackedData.ComputeOffsets` | rsElement.cpp:193-199 | each field's offsets are the sums of the sizes before it, in both layouts, and the totals are the sizes of a cell |
| `PackedData.FieldBits` | rsElement.cpp:195-196 | the sizes of all fields in one layout |
| `PackedData.Compute` | rsElement.cpp:190-220 | padded and packed offset of a field agree if and only if no three-vector comes before it, and the sizes if there is none at all; otherwise the padded ones are larger |
| `PackedData.OffsetBytes` | rsElement.cpp:213 | offsets in bytes are sums of sizes in bytes |
| `PackedData.FieldsLayout` | rsElement.cpp:193-216 | the layout of a flat struct is in order in both forms, and the copy takes all of it if and only if no field is an array |
| `PackedData.FieldRange` | rsElement.cpp:193-199 | fields do not overlap and are inside the cell |
| `PackedData.MovesAreOk` | rsAllocation.cpp:300-312 | every copy of a field stays inside its cells and apart from the others |
| `PackedData.FieldMoved` | rsAllocation.cpp:315-321 | every byte of every field arrives |
| `PackedData.PaddingKept` | rsAllocation.cpp:315-321 | bytes between fields stay as they were |
| `PackedData.PackUnpacked` | rsAllocation.cpp:315-321 | packing what was unpacked gives the packed cell again, when fields are copied whole |
| `PackedData.ByteLost` | rsAllocation.cpp:308-317 | of an array the second element is not copied |
| `PackedData.RoundTripIff` | rsAllocation.cpp:300-321 | the round trip holds for all buffers if and only if every field is copied whole |
| `PackedData.UnpackPacked` | rsAllocation.cpp:315-321 | unpacking what was packed restores every byte that is copied |
| `PackedData.PackUnpackedCells` | rsAllocation.cpp:279-326 | the first round trip for any number of cells |
| `PackedData.UnpackPackedCells` | rsAllocation.cpp:279-326 | and the second |
| `PackedData.Copy` | rsAllocation.cpp:317 | `memcpy` between different buffers |
| `PackedData.CopyFields` | rsAllocation.cpp:316-318 | the fields of a cell, copied in order |
| `PackedData.CacheOffsets` | rsAllocation.cpp:300-312 | the cached offsets are those of the layout, in the direction asked for |
| `PackedData.WriteCell` | rsAllocation.cpp:316-320 | one cell more is moved, and the others stay |
| `PackedData.WritePackedData` | rsAllocation.cpp:279-326 | the destination becomes the cells with their fields moved, and nothing beside them changes |
| `PackedData.UnpackThenPack` | rsAllocation.cpp:279-346 | two such copies, there and back, give the packed bytes again |
| `Lut3D.TapsInIffBelow` | cpu_ref/rsCpuIntrinsic3DLUT.cpp:103-115 | for any multiplier both neighbours are in the table for all inputs, if and only if 255 times it stays below the last entry |
| `Lut3D.RoundedNear` | cpu_ref/rsCpuIntrinsic3DLUT.cpp:79-80 | single-precision rounding stays within half a unit in the last place |
| `Lut3D.TapsInIff` | cpu_ref/rsCpuIntrinsic3DLUT.cpp:73-115 | with the multiplier that the source computes in single precision, that is the guard on the dimension |
| `Lut3D.MulBound` | cpu_ref/rsCpuIntrinsic3DLUT.cpp:79-80 | how far rounding can raise the multiplier |
| `Lut3D.SmallDims` | cpu_ref/rsCpuIntrinsic3DLUT.cpp:73-115 | dimensions from 2 to 255 pass the guard |
| `Lut3D.FailingDims` | cpu_ref/rsCpuIntrinsic3DLUT.cpp:73-115 | 1, 256 and 509 do not |
| `Lut3D.BaseFits` | cpu_ref/rsCpuIntrinsic3DLUT.cpp:103 | scaled coordinates stay below 2^31 up to dimension 65536 |
| `Lut3D.ResultBetween` | cpu_ref/rsCpuIntrinsic3DLUT.cpp:126-135 | the result lies between the smallest and the largest of the eight entries |
| `Lut3D.NoOverflow` | cpu_ref/rsCpuIntrinsic3DLUT.cpp:126-137 | no intermediate value leaves 31 bits, and the result is a byte |
| `Lut3D.ResultError` | cpu_ref/rsCpuIntrinsic3DLUT.cpp:126-135 | it differs from exact trilinear interpolation by less than 131/256 |
| `Lut3D.AddressIn` | cpu_ref/rsCpuIntrinsic3DLUT.cpp:111 | an entry of the table is inside its memory |
| `Lut3D.Offsets` | cpu_ref/rsCpuIntrinsic3DLUT.cpp:111-124 | the eight offsets from the moved base are the eight neighbours, inside its memory |
| `Lut3D.Channel` | cpu_ref/rsCpuIntrinsic3DLUT.cpp:103-137 | one channel is the interpolation of the right entries with the right weights |
| `Lut3D.MapPixel` | cpu_ref/rsCpuIntrinsic3DLUT.cpp:103-163 | the three channels of a pixel are mapped, and alpha is copied |
| `Lut3D.ExactAffine` | cpu_ref/rsCpuIntrinsic3DLUT.cpp:127-136 | interpolation between entries that step evenly along the axes follows each step by its own weight |
| `Lut3D.MulNear` | cpu_ref/rsCpuIntrinsic3DLUT.cpp:79-80 | the multiplier is below its exact value by less than two units |
| `Lut3D.TapsAffine` | cpu_ref/rsCpuIntrinsic3DLUT.cpp:103-136 | for a table that is affine in a channel, exact interpolation is that function at the coordinates of the pixel |
| `Lut3D.MapsFollow` | cpu_ref/rsCpuIntrinsic3DLUT.cpp:86-164 | such a table maps every pixel to its value at the place of the pixel, where 255 is the last entry, up to a stated bound |
| `Lut3D.Kernel` | cpu_ref/rsCpuIntrinsic3DLUT.cpp:86-164 | every pixel of the row is mapped so, alpha is copied, and a table that is affine in a channel is followed within the stated bound |
| `MipChain.FindHighBit` | rsCppUtils.h:215-223 | the power of two of the result is at most the value, and the next one above it |
| `MipChain.ChainEnds` | rsType.cpp:65-100 | the last level counted is the first at which no dimension is above 1 |
| `MipChain.LevelIs` | rsType.cpp:91-100 | level n has each dimension divided by 2 to the n, but at least 1 unless it was 0 |
| `MipChain.CellsHalve` | rsType.cpp:96-99 | each level has at most half the cells of the one before |
| `MipChain.LessThanTwice` | rsType.cpp:91-100 | all levels have less than twice the cells of the base |
| `MipChain.CountLods` | rsType.cpp:67-76 | the number of levels, from the high bits |
| `MipChain.Compute` | rsType.cpp:65-104 | the dimensions of every level and the cells of all; none if x is 0 |
| `MipChain.CountLevel` | cpp/Type.cpp:52-64 | one level more is counted, and the loop gets nearer its end |
| `MipChain.CalcElementCount` | cpp/Type.cpp:32-66 | halving until nothing is left to halve counts the same levels as the high bits do |
| `MipChain.SameTotal` | cpp/Type.cpp:41-49 | dimensions that are zero count as one |
| `MipChain.BothCounts` | rsType.cpp:65-104 | the runtime and the client library agree on the count, with faces and mipmaps, if and only if x is not 0 |
| `Bytes.RoundTrip` | rsStream.h:103-106 | a value that fits comes back from its little-endian bytes |
| `Bytes.BytesBack` | rsStream.h:43-48 | bytes come back from their value |
| `Bytes.Digit` | rsStream.h:108-117 | byte i is digit i of the value to the base 256, the lowest first |
| `Bytes.AlignUpLeast` | rsStream.h:87-92 | aligning gives the least multiple that is not below the position |

## Left out

- WorkerPool.RoundsEnd: without spurious wakeups, which IEEE Std 1003.1 allows for condition waits; what they do is in `CallerSpuriousInv`, `HelperSpuriousRuns`, `HelperSpuriousCount`, `EarlyRelease` and `RunsTwice`, which are outside the runs of the model. A callback is one step there; `Launching.LaunchEnds` is the same with the steps of the slice loop.
- WorkerPool.InitInv: all threads are created; the branch for fewer threads (cpu_ref/rsCpuCore.cpp:298-302) and teardown (cpu_ref/rsCpuCore.cpp:319-345) are not modelled, nor is failure of the mutex calls in rsSignal.cpp.
- SliceScheduler.ParallelEqualsSerial: for kernels whose cells do not depend on each other; kernels are functions of the cell.
- SliceScheduler.SerialLaunch: which cells are visited is stated for ranges inside dimensions that are not 0; for allocations without y or z it is the single plane of `SameVisitsIffOnePlane`.
- SliceScheduler.SliceSizeBounds: one of the two strides is not zero, without which the source divides by zero.
- Simd: the branch encoding `addBranch`; the chunks are modelled by what each of their instructions does, not as encoded words.
- ColorMatrix.Build: the float and mixed paths of the generator, and the rounding of coefficients.
- ColorScript.Script.RunRow: the pixel-by-pixel path is a function that is given, because it computes in float.
- ObjectLifetime.Context.RefSet: the object that holds the slot is a survivor; if it is none the drop deletes it (`HolderGoes`), and the source then goes on in freed memory and drops the member again.
- ObjectLifetime.Context.RefClear: the same.
- ObjectLifetime.Context.DropSlot: the same.
- ObjectLifetime.Context.RsrSetObject: the same.
- ObjectLifetime.Context.CountThenDrop: the same.
- ObjectLifetime: counts changed by several threads at once, `preDestroy` hooks, `freeAllChildren` and names; the address of a new object is a parameter.
- GlyphCache.FontState.RenderText: text is given as characters; decoding UTF-8, bitmap and measure modes, `precacheLatin` and drawing itself are left out, and the font face is a fixed function of the character. Drawing is taken to succeed (rsFont.cpp:661-663).
- CommandRpc.RunSafe: contexts with a local queue; the remote path (rsg_generator.c:333-399), synchronous contexts, sockets, polling and shutdown are left out. Pointers have 8 bytes, and sums of lengths do not overflow.
- ScriptGroup.Order.CalcOrder: links to script fields.
- ScriptGroup.SortNodes: an insertion sort stands for the library sort; `IncreasingFeeds` and `RightIffFeedersFirst` are for any arrangement.
- ScriptGroup.Execute: kernels are functions of their input; a driver that executes groups itself is left out.
- Streams.OStream.constructor: lengths from 16 on, as all callers ask for; one doubling of a shorter buffer does not hold a number.
- Streams.OStream.AddString: a string that does not fit writes past the buffer in the source; the model stops there.
- Streams.IStream.LoadNum: reading past the data is an error here and unchecked in the source.
- FileA3D.Writer.WriteFile: file operations, and names longer than the 5 KB header buffer; offsets and lengths are below 2^32, as the fields they are cut to.
- FileA3D.Reload: the same.
- FileA3D: loading from a FILE handle and `initializeFromEntry`.
- Elements.ElementState.CreateStruct: names are taken to end in a zero byte behind the length that is given.
- Elements.ElementState.CreateFromStream: a field whose element is missing or of another class gives none; the source then uses a NULL element.
- Elements.ElementState.LoadField: the same.
- Elements.WriteAndRead: user references and the lock are left out.
- PackedData.FieldsLayout: packed pixel types and nested structs are left out.
- PackedData.WritePackedData: the number of cells is a parameter.
- Lut3D.Channel: dimensions up to 65536, beyond which coordinates leave 31 bits; the assembly path is left out.
- MipChain.Compute: naturals without bound; products of dimensions above 2^32 and YUV planes are left out.
- Graphics programs, the Java and C++ bindings, other intrinsics, allocations beyond the packed copy, and the script compiler driver: they would add members, not harder claims.

The register and instruction behaviour in `Simd` follows the ARM Architecture Reference Manual, ARMv7-A and
ARMv7-R edition, section A7.4.
