# Verified model of the tt-lang simulator and compiler

A Dafny model of five parts of tt-lang, with proofs of what they are for. `dafny verify dfyconfig.toml` checks all of it.

1. **Dataflow buffers and their scheduler.** Kernel threads are greenlets that meet only at `reserve`, `push`, `wait` and `pop` on bounded ring buffers.
   `BlockState` is the access-state machine of a block, stated a second time as a usage contract on histories. `RingState` holds the ring (`DFBState`) and the block windows (`Block`) as classes. `DataflowQueue` is the bounded queue of blocks that a buffer is meant to be, and `Dataflow` proves the class `DataflowBuffer` to refine it. `Copying` is the copy transaction. `Network` is the system of deterministic threads over such queues, with schedule independence. `Switching` is the theory of runs and waiting of any system whose steps keep other threads enabled, `Scheduler` is `GreenletScheduler` over such a system, and `KernelSystem` shows that kernels are such systems. `SideBySide` puts the kernels of several cores into one. `Pipeline` is the reader/compute/writer kernel of `examples/eltwise_add.py` on one core, `PipelineCores` on all of them, and `ElementwiseShares` the whole program with the blocks that each core takes, whose numbers `ShareLoads` bounds. `MatmulPipeline` is the kernel of `examples/singlecore_matmul.py`, `MatmulProgram` that program on its matrices.
2. **Pipe multicast.** `PipeMulticast` is the queue behind a pipe; `CoreContext` (over `MixedRadix`) is core numbering, `CoreRange` slice expansion and slice membership, from which the sender takes its receiver count, and `DestinationSlices` what the fields of a slice mean.
3. **Compiler passes.** `Fusion` is elementwise fusion, with `ElementwiseChains` on what can be fused; `LoopIndex` is loop lowering and tile-index linearisation, with `AcceptedBroadcasts` on broadcasts; and the transfer-handle checks are in `ContainerLoops` and `ContainerVerdicts` (containers of handles; `TransferProgram` is the programs, `IterSpaces` the loop bounds) and `TransferVerifier` (the walks over uses and sources).
4. **Tile algebra.** `Matmul` is the blocked product and its K-accumulation, `MatmulBuffers` the accumulation over two dataflow buffers, `TileCopy` and `TileElements` the tensor handlers.
5. **Allocation arithmetic.** `GridRanges`, `Divisors`, `Subblocks`, `BlockAllocation` and `WorkSplit`.

Stateful code is modelled by classes and methods with loops, each proved against a specification; the theorems are lemmas about those specifications. Values are exact integers or an arbitrary tile type; threads, buffers and cores are numbers. A blocking call is a guard on the step that it delays. Clocks, the environment and the libraries below (greenlet, torch, MLIR, sympy) appear as parameters: whether a thread raised, an `add` on tiles, a set of attached values, a list of primes.

Where the code and its documentation disagree, the model follows the code:

- `python/sim/greenlet_scheduler.py:360-376` says that a thread which blocks at its first check keeps timestamp 0. With the fair algorithm `block_if_needed` (lines 670-675) records progress before it yields, so every thread that reaches a check gets a timestamp.
- `python/sim/greenlet_scheduler.py:165-176` and 378-386: a thread that finishes in the initialization phase is marked completed twice, once by its own wrapper.
- `lib/Dialect/TTL/IR/TTLOpsVerifyUtils.cpp:87-90` promises a `true` only where all handles written are proved to be waited for. Lines 58-71 accept a wait at any depth in the reader loop, also in an inner loop that never runs (`ContainerLoops.WaitThatNeverRuns`), and no line looks at the tensor that the insert adds to, which may have lost the handles of earlier iterations (`ContainerLoops.HandlesThatAreDropped`). `ContainerLoops.PositiveVerdictIsRightIff` says when a `true` is right.
- The same lines promise a `false` only where some index is provably not waited for; lines 171-174 answer `false` also for a covering loop with another lower bound (`TransferVerifier.NegativeVerdictIsConservative`), and `ContainerLoops.NegativeVerdictIsWrongIff` says when a `false` is wrong.
- `python/sim/dfb.py:1208-1209` fills a reserved block with zeros, and `examples/singlecore_matmul.py:38-39` relies on it; but a block that was not written is refused by `push`, so with output blocks and an inner dimension of zero the program always fails (`MatmulPipeline.NoProductsFails`).
- `python/sim/corecontext.py:88-106` and 144-158 describe `grid_size` and `core` as two views of one shape. For a rank strictly between one and the grid's they are different shapes unless every size of the grid but the first and last is one (`CoreContext.ShapesAgree`), and then a receiver count is wrong (`CoreRange.ReceiverCountIsRight`).
- `python/sim/pipe.py:205-217` takes any core coordinate as a destination. The coordinate `(k,)` is in no core's range, because `core(dims=1)` is a number (`CoreRange.LoneIndexIsNeverReceived`); and with a negative step the slices that are expanded and those that accept differ (`CoreRange.ExpandedMembers`).
- `python/sim/copyhandlers.py:417-426` lets a receive through when the queue is not empty; the receive can still time out, also on a message that its core is owed (`PipeMulticast.ReceiveInRun`).
- `python/utils/block_allocation.py:376-395` promises a configuration that respects the memory constraint; in its third case the result can be over it (`BlockAllocation.StaleBlockExceedsBudget`).
- `lib/Dialect/TTL/Transforms/ConvertTTLToCompute.cpp:144-152` indexes every input of a fused compute with the identity map; a fused broadcast that expands its input then reads another tile (`Fusion.PreservesMeaningIff`).

## Model

| member | source | states |
|---|---|---|
| BlockState.HistoryDeterminesState | python/sim/blockstate.py:110-273 | in every accepted history of any acquisition and thread kind, the access state and the expected operations are what the history itself says; NAR and NAW hold exactly while one copy is un-waited |
| BlockState.AcceptedIffAllowed | python/sim/dfb.py:215-292 | an operation is accepted if and only if the usage contract on histories allows it; a refusal says whether the block is finished or the operation is not expected now, and is never one of the "Impossible!" errors |
| BlockState.FinalOperations | python/sim/dfb.py:325-375 | `push` is accepted if and only if a write has completed and no copy is in flight, `pop` if and only if the contents were read since acquisition or last overwrite |
| BlockState.ReadIsIdempotent | python/sim/dfb.py:305-307 | marking a block read by a compute store twice is marking it once |
| RingState.SlotIsModular | python/sim/dfb.py:453-470 | the slot of element i of a window is `(start + i) % capacity` |
| RingState.ClearedViews | python/sim/dfb.py:972-983 | clearing the first n visible slots drops them from the visible window and leaves the write window's contents |
| RingState.Block.Mark | python/sim/dfb.py:246-291 | a state-machine step either moves to the table's next state or raises and changes nothing |
| RingState.Block.AccessIff | python/sim/dfb.py:378-450 | by its history: a block can be read if and only if it is open, holds data and no copy is writing it, and written if and only if it is open and no copy is in flight |
| RingState.Block.GetItem | python/sim/dfb.py:453-470 | which of the access, index and initialisation errors a read meets, and otherwise the element |
| RingState.Block.ToList | python/sim/dfb.py:512-518 | succeeds if and only if the block is readable and full, with its contents in order |
| RingState.Block.WriteSlot | python/sim/dfb.py:491-502 | writes one slot of the window and nothing else, or fails and writes nothing |
| RingState.Block.CopyAsDest | python/sim/dfb.py:520-536 | fills the window and no slot outside it; a wrong length writes nothing |
| RingState.Block.Store | python/sim/dfb.py:569-630 | with which error a store is refused and what is marked by then; otherwise which blocks it marks, that the first accumulating store assigns and later ones add up to the first empty slot, reported as uninitialized, and that nothing outside the window changes |
| RingState.Block.PopIdx | python/sim/dfb.py:504-510 | clears one filled slot; an index outside the window or an empty slot is reported and clears nothing |
| RingState.DFBState.constructor | python/sim/dfb.py:834-845 | a configured ring is empty |
| RingState.DFBState.FreeSlots | python/sim/dfbstate.py:70-71 | the free count is the number of slots in neither the visible nor the reserved window, wherever these lie in the ring |
| RingState.DFBState.CheckNumTiles | python/sim/dfbstate.py:62-68 | a count is accepted if and only if no window of that many tiles wraps when it starts at a multiple of it |
| RingState.DFBState.WaitFront | python/sim/dfb.py:886-915 | succeeds if and only if the count is legal and so many tiles are visible, and moves nothing |
| RingState.DFBState.ReserveBack | python/sim/dfb.py:917-941 | succeeds if and only if there is room, and moves neither window's start |
| RingState.DFBState.PushBack | python/sim/dfb.py:943-958 | turns the front of the reserved window into the back of the visible one, contents unchanged |
| RingState.DFBState.PopFront | python/sim/dfb.py:960-987 | removes and clears the first n visible tiles; the remaining visible tiles, the write window and its start are unchanged |
| RingState.DFBState.GetReadPtr | python/sim/dfb.py:990-1011 | a block over the last waited tiles, or the error that applies |
| RingState.DFBState.GetWritePtr | python/sim/dfb.py:1013-1033 | a block over the last reserved tiles, or the error that applies |
| RingState.DFBState.WindowsAreDisjoint | python/sim/dfbstate.py:73-79 | a read window and a write window share no slot modulo the capacity |
| DataflowQueue.FifoHolds | python/sim/dfb.py:1141-1312 | in every run, at most `buffer_factor` blocks are held and those not being read are what was pushed last, in order |
| DataflowQueue.WaitYieldsOldestUnpopped | python/sim/dfb.py:1141-1184 | in every run a successful `wait` hands over the contents of the oldest unpopped push; it would block if and only if everything pushed was popped |
| DataflowQueue.SeenArePushes | python/sim/dfb.py:1290-1312 | in every run, stealing pops included, the j-th successful `wait` sees the push whose number is the count of pops before it; these numbers increase |
| DataflowQueue.SeenInOrderIff | python/sim/dfb.py:1290-1312 | the waits see pushes 0, 1, 2, ... with none lost if and only if no successful wait comes after a pop that took a block nobody had waited for |
| DataflowQueue.SeenIsPrefixOfPushed | python/sim/dfb.py:1290-1312 | so the contents seen are a prefix of those pushed unless a wait follows a stealing pop |
| DataflowQueue.StealingPopLosesABlock | python/sim/dfb.py:1306-1312 | a `pop_block` without a pending waited block can lose a block: a concrete run in which the second push is seen first |
| Dataflow.DataflowBuffer.constructor | python/sim/dfb.py:1071-1122 | a new buffer stands for the empty queue of its factor |
| Dataflow.DataflowBuffer.GuardsAgree | python/sim/dfb.py:1186-1198 | `can_wait` and `can_reserve` on tile counts say what the queue's guards say on blocks |
| Dataflow.DataflowBuffer.WaitBlock | python/sim/dfb.py:1141-1184 | `wait` does to the buffer what the queue's wait does, errors included, and returns a block holding the oldest unpopped contents |
| Dataflow.DataflowBuffer.ReserveBlock | python/sim/dfb.py:1200-1253 | `reserve` refines the queue's reserve; the block returned is filled with zeros |
| Dataflow.DataflowBuffer.Push | python/sim/dfb.py:1269-1288 | `push_block` refines the queue's push: the pending block's contents become the newest block |
| Dataflow.DataflowBuffer.Pop | python/sim/dfb.py:1290-1312 | `pop_block` refines the queue's pop, with and without a pending waited block |
| Dataflow.DataflowBuffer.Deliver | examples/singlecore_matmul.py:53-59 | reserve, copy, wait and push append one block with the copied contents |
| Dataflow.DataflowBuffer.WindowSafety | python/sim/dfb.py:1239-1246 | pending windows never wrap, share no slot, and hold a tile in every slot, so "uninitialized slot" cannot be raised |
| Dataflow.DataflowBuffer.HeldWindowsAreFilled | python/sim/dfb.py:1239-1246 | every slot of the visible window and of the pending blocks holds a tile |
| Dataflow.DataflowBuffer.WriterTouchKeepsValid | python/sim/dfb.py:520-630 | writing inside the reserved window keeps the buffer's invariant |
| Dataflow.DataflowBuffer.WriterTouchRefines | python/sim/dfb.py:520-630 | a marked operation on the reserved block changes only the queue's pending write, not what the consumer can see |
| Dataflow.DataflowBuffer.ReaderTouchKeepsValid | python/sim/dfb.py:520-630 | writing inside the waited window keeps the buffer's invariant |
| Dataflow.DataflowBuffer.ReaderTouchRefines | python/sim/dfb.py:520-630 | a marked operation on the waited block changes only the oldest visible block |
| Copying.CopyTransaction.Create | python/sim/copy.py:34-72 | creation locks the block if the state machine allows it; a failed validation leaves it locked |
| Copying.CopyTransaction.Wait | python/sim/copy.py:97-131 | the first wait transfers every tile and releases the block, a second does nothing, a failed one leaves the block locked |
| Network.SidesCommute | python/sim/dfb.py:885-987 | a producer and a consumer operation on one buffer commute, and neither changes whether the other is enabled, what it sees or its outcome, unless a push into an empty buffer meets a pop without a wait |
| Network.Diamond | python/sim/greenlet_scheduler.py:425-497 | steps of two different enabled threads lead to the same state in either order if and only if they are not such a push and pop on one buffer, which the present state tells |
| Network.NeverDisabled | python/sim/greenlet_scheduler.py:650-683 | running one thread never disables another |
| Network.EveryRunJoins | python/sim/greenlet_scheduler.py:425-497 | if one schedule completes popping only what it waited for, every partial run can be continued to the same end, with as many steps of each thread |
| Network.ScheduleIndependence | python/sim/greenlet_scheduler.py:425-497 | all complete runs from a start state end in the same buffers, thread states and errors (or the same deadlock) |
| Network.ErrorsAreScheduleIndependent | python/sim/greenlet_scheduler.py:425-497 | the error of a thread that fails in any partial run is its error in a complete run that pops only what it waited for; so if that run is free of errors, all are |
| Network.StrayPopIsRacy | python/sim/dfb.py:1306-1312 | without the discipline on pops the outcome depends on the schedule: a concrete two-thread kernel |
| Network.RaceFreeIffCommuting | python/sim/greenlet_scheduler.py:425-497 | in all reachable states enabled steps commute if and only if no reachable state has two next operations that race |
| Network.RaceFreeIsIndependent | python/sim/greenlet_scheduler.py:425-497 | then all complete runs end alike, also where pops take what nobody waited for |
| Network.DisciplinedIsRaceFree | python/sim/greenlet_scheduler.py:425-497 | one complete run that pops only what it waited for rules out races in all runs |
| Scheduler.GreenletScheduler.constructor | python/sim/greenlet_scheduler.py:67-113 | all threads, those with nothing to do among them, start active and unblocked at timestamp 0, in the state that `run` starts from |
| Scheduler.GreenletScheduler.Perform | python/sim/greenlet_scheduler.py:115-163 | an operation is performed only while enabled, extends the run, and leaves every other thread as it was and as enabled as it was |
| Scheduler.GreenletScheduler.BlockIfNeeded | python/sim/greenlet_scheduler.py:650-683 | the fair algorithm always yields, the greedy one exactly when the operation cannot proceed |
| Scheduler.GreenletScheduler.MarkCompleted | python/sim/greenlet_scheduler.py:165-176 | a finished thread leaves the active ones |
| Scheduler.GreenletScheduler.Switch | python/sim/greenlet_scheduler.py:425-497 | a switched-to thread runs to its next block, its end or an exception; a resumed thread makes progress and other threads are untouched |
| Scheduler.GreenletScheduler.InitializationPhase | python/sim/greenlet_scheduler.py:336-387 | every thread still active afterwards is blocked at its first synchronisation point, and the stamps increase in the order in which the threads were added |
| Switching.FirstPassInOrder | python/sim/greenlet_scheduler.py:389-408 | so the first fair pass goes over the threads in that order |
| Scheduler.GreenletScheduler.GetFairThreadOrder | python/sim/greenlet_scheduler.py:389-408 | the active threads, each once, least recently run first and then by name |
| Scheduler.GreenletScheduler.Visit | python/sim/greenlet_scheduler.py:440-497 | one candidate: skipped only while disabled, otherwise run with strictly less work left |
| Scheduler.GreenletScheduler.RunPass | python/sim/greenlet_scheduler.py:425-497 | a pass looks at the active threads, in their order or least recently run first; without progress it leaves the state alone and every thread disabled; with progress less work is left |
| Scheduler.GreenletScheduler.Run | python/sim/greenlet_scheduler.py:410-500 | `run` terminates for finite threads; finished means all threads halted; deadlock is reported only when no thread's operation is enabled and none has raised; every operation performed was enabled, so buffer timeouts are unreachable; on every verdict the log of switches is tied to the trace and its states, and in no stretch of it does an enabled operation wait longer than the bounds |
| Switching.WaitingIsBounded | python/sim/greenlet_scheduler.py:425-500 | in every stretch of the log in which an enabled operation is not run it stays enabled, and the stretch is at most 2(n-1) switches long, n-1 under the fair algorithm |
| Switching.NotTwice | python/sim/greenlet_scheduler.py:389-408 | in a fair pass no thread runs twice while another waits enabled |
| Switching.PassRuns | python/sim/greenlet_scheduler.py:440-497 | running the next candidate keeps the bound on waiting |
| Switching.SwitchLosesWork | python/sim/greenlet_scheduler.py:425-497 | every switch lowers the total work left, which is why `run` ends |
| KernelSystem.EnabledAgrees | python/sim/dfb.py:1255-1267 | the scheduler's test at a synchronisation point is the buffer's own guard |
| KernelSystem.SyncPoints | python/sim/dfb.py:1141-1253 | a thread can be held up only at a wait or reserve with no block pending, or at the wait for a copy; everywhere else its operation is enabled |
| KernelSystem.KernelsAreLawful | python/sim/greenlet_scheduler.py:650-683 | kernels with finite threads meet everything the scheduler's proof asks of a system |
| KernelSystem.TraceIsRun | python/sim/greenlet_scheduler.py:410-500 | a trace of the scheduler is a run of the kernel |
| KernelSystem.SchedulersAgree | python/sim/greenlet_scheduler.py:425-497 | greedy or fair, the scheduler reaches the same end state in the same number of operations |
| KernelSystem.NoAlgorithmFails | python/sim/greenlet_scheduler.py:299-334 | if one run completes without an error, no algorithm ever reports one |
| Pipeline.KernelIsWired | examples/eltwise_add.py:27-71 | each buffer of the kernel has one producer and one consumer thread |
| Pipeline.SomeoneCanMove | examples/eltwise_add.py:27-71 | for every block count and every factor of at least one, no feasible state is stuck before all three threads are done |
| Pipeline.EveryScheduleFinishes | examples/eltwise_add.py:27-71 | every run has at most 21 steps a block and is stuck if and only if it has taken them all |
| Pipeline.CompleteRunsAreCorrect | examples/eltwise_add.py:27-71 | no run meets an error; complete runs end with every thread halted, every buffer empty, nothing pending, and the sums written in order |
| Pipeline.EitherAlgorithmFinishes | examples/eltwise_add.py:27-71 | the same under the scheduler, whichever algorithm it uses; at the end every thread has halted, so neither failure nor deadlock is reported |
| SideBySide.RunSplits | python/sim/greenlet_scheduler.py:410-500 | a run of several cores' threads in one scheduler is an interleaving of one run of each core |
| SideBySide.StuckTogether | python/sim/greenlet_scheduler.py:410-500 | the cores together are stuck if and only if each of them is |
| PipelineCores.AllCoresFinish | examples/eltwise_add.py:11-71 | for any number of cores with any shares, no interleaving meets an error, it has at most 21 steps a block, and is stuck if and only if it has taken them all, with every core finished |
| PipelineCores.EitherAlgorithmFinishesAll | examples/eltwise_add.py:11-71 | every trace of the scheduler over all cores is free of errors, and one after which nothing is enabled has every core finished |
| PipelineCores.RunCores | examples/eltwise_add.py:11-71 | a scheduler constructed for the cores and run, with either algorithm, returns success and leaves every core finished, also where cores have no blocks |
| ElementwiseShares.Visit | examples/eltwise_add.py:27-66 | the nested loops with their bounds checks visit the rectangle of blocks that is the core's share, in order |
| ElementwiseShares.HasOwner | examples/eltwise_add.py:14-19 | for any tensor and grid sizes, each block is in some core's share |
| ElementwiseShares.OneOwner | examples/eltwise_add.py:14-19 | in no other core's, and once only |
| ShareLoads.CeilDivIsLeast | examples/eltwise_add.py:18-19 | the share is the least number with which the cores of a row or column hold everything |
| ShareLoads.NoBetterDivision | examples/eltwise_add.py:18-19 | however the rows or columns are divided, some core has at least that many |
| ShareLoads.FullBeforeLast | examples/eltwise_add.py:30-35 | a core has the full share if the next one has anything |
| ShareLoads.LargestShare | examples/eltwise_add.py:18-35 | no core has more blocks than the least sufficient numbers of rows and columns make |
| ShareLoads.EvenShares | examples/eltwise_add.py:18-35 | when the grid divides the tensor all cores have equally many blocks |
| ElementwiseShares.CoordinatesOf | python/sim/corecontext.py:144-185 | the core coordinates that the shares are about are those that `core(dims=2)` returns |
| ElementwiseShares.RunEltwiseAdd | examples/eltwise_add.py:12-71 | the whole program on any grid, under either algorithm: it succeeds, the cores have written the sum of the operands at every block, each by its one owner, and nothing else |
| MatmulPipeline.KernelIsWired | examples/singlecore_matmul.py:34-69 | each buffer of the matrix kernel has one producer and one consumer thread |
| MatmulPipeline.SomeoneCanMove | examples/singlecore_matmul.py:34-69 | for all numbers of blocks and products and every factor of at least one, a feasible state is stuck if and only if all three threads are done |
| MatmulPipeline.EveryScheduleFinishes | examples/singlecore_matmul.py:34-69 | with a positive inner dimension, or no output: no run meets an error, it has at most 15 steps a product and 6 an output block, and is stuck if and only if it has taken them all; then every thread has halted, the buffers are empty and each output written is the sum of its products |
| MatmulPipeline.NoProductsFails | examples/singlecore_matmul.py:36-45 | otherwise every run is at most two steps, of the compute thread, and is complete if and only if its push has been refused |
| MatmulPipeline.RunMatmul | examples/singlecore_matmul.py:34-69 | the kernel under the scheduler, with either algorithm, returns success with all of that if and only if the inner dimension is positive or there is no output, and the compute thread's failure otherwise |
| MatmulProgram.RunSinglecoreMatmul | examples/singlecore_matmul.py:11-69 | the program on any two matrices that fit, any buffer factor and either algorithm: it succeeds if and only if the inner dimension is positive or there is no output, and the tensor written is then their block product (which `Matmul.BlockedIsFlat` says is the product of the matrices) |
| PipeMulticast.PipeEntry.SendBlock | python/sim/copyhandlers.py:301-308 | a send appends one message with its receiver count and a fresh number, and signals |
| PipeMulticast.PipeEntry.ReceiveBlock | python/sim/copyhandlers.py:482-546 | which message a core takes, when it is deleted, and which receive times out or mismatches |
| PipeMulticast.MulticastDelivers | python/sim/copyhandlers.py:482-546 | in every run with matching lengths and destination receivers, each core's log is a prefix of the send log and the queue holds exactly the messages still owed, with remaining = N - receivers > 0 |
| PipeMulticast.ReceiversNested | python/sim/copyhandlers.py:500-511 | receiver sets shrink along the queue |
| PipeMulticast.TakenEntry | python/sim/copyhandlers.py:528-536 | the last receiver of a message always takes it from the front |
| PipeMulticast.GoneIffServed | python/sim/copyhandlers.py:528-536 | a message is deleted if and only if all N destinations have it |
| PipeMulticast.ReceiveSucceedsIffOwed | python/sim/copyhandlers.py:428-546 | in a delivering state a receive of the right length succeeds if and only if the core is owed a message and the event is set, and gets the next message of the send log |
| PipeMulticast.SignaledIff | python/sim/copyhandlers.py:450-540 | in every run the event is set if and only if the queue is not empty and no core that was owed nothing has received since the last send |
| PipeMulticast.ReceiveInRun | python/sim/copyhandlers.py:417-546 | so in every run: exactly when a receive succeeds, and exactly when `can_wait` lets one through to a timeout |
| PipeMulticast.IdleReceiveStarves | python/sim/copyhandlers.py:500-504 | a run in which an idle receive clears the event and another core times out on a message it is owed |
| PipeMulticast.MismatchStrands | python/sim/copyhandlers.py:512-523 | a length mismatch records the receiver without counting it, leaving more receivers counted than remain |
| PipeMulticast.StrandedForever | python/sim/copyhandlers.py:528-546 | a message that counts more receivers still to come than some cores have left to receive it is never deleted, whatever is sent and these cores receive afterwards |
| PipeMulticast.GoneIffTaken | python/sim/copyhandlers.py:500-546 | for receives by any cores with any lengths: a message is deleted if and only if it has been taken as often as its count at the start said, and until then the count is what is left |
| MixedRadix.FlattenDigits | python/sim/corecontext.py:77-85 | flattening the digits of a number below the grid's product gives it back |
| MixedRadix.DigitsFlatten | python/sim/corecontext.py:164-185 | the digits of a flattened in-grid coordinate are that coordinate |
| CoreContext.Core | python/sim/corecontext.py:144-185 | `core(dims)` writes the core number in the mixed radix of the merged or padded shape, in every rank |
| CoreContext.FlattenCoreIndex | python/sim/corecontext.py:51-85 | a tuple flattens row-major over the grid's trailing sizes, and too many dimensions raise |
| CoreContext.GridSize | python/sim/corecontext.py:88-141 | the reported shape in every rank, and the error for a rank that is not positive |
| CoreContext.CoordinatesAreABijection | python/sim/corecontext.py:144-185 | in any rank, cores and in-shape coordinates correspond one to one, `flatten` being the inverse |
| CoreContext.ShapesAgree | python/sim/corecontext.py:122-133 | `core` and `grid_size` use the same shape if and only if the rank is one or at least the grid's, or every size of the grid but the first and last is one |
| CoreRange.CartesianProduct | python/sim/pipe.py:190-203 | appends to the result exactly the tuples of the product, in order, after the given prefix |
| CoreRange.ExpandCoreRange | python/sim/pipe.py:149-203 | the expansion of a range of indices and slices with defaults taken from the grid |
| CoreRange.CoreInDstRange | python/sim/pipe.py:205-267 | for an index, a tuple of indices and a tuple with slices: whether the core is in the range; a lone index in a tuple is no core's, and an empty tuple raises |
| DestinationSlices.ForwardSlice | python/sim/pipe.py:176-182 | by the fields of a slice with positive or omitted step: exactly which coordinates it expands to, an omitted start being 0, stop the grid's size and step 1 |
| DestinationSlices.BackwardSlice | python/sim/pipe.py:176-182 | the same for a negative step |
| DestinationSlices.SliceMatches | python/sim/pipe.py:248-256 | by the same fields: exactly which coordinates pass the membership test |
| DestinationSlices.AllOfGrid | python/sim/pipe.py:149-260 | the destination `(:, ..., :)` is counted as all cores in every rank, and received by all if and only if `core` and `grid_size` use the same shape in that rank |
| CoreRange.SliceAgreesIff | python/sim/pipe.py:173-181 | for one slice, expansion and membership agree on all coordinates if and only if its step is positive or it is empty |
| CoreRange.ExpandedIsDistinct | python/sim/pipe.py:149-203 | the expansion lists no tuple twice |
| CoreRange.NumReceivers | python/sim/copyhandlers.py:278-299 | the count that a send stores is the size of the expansion, for every kind of destination |
| CoreRange.ExpandedMembers | python/sim/pipe.py:149-260 | for all steps: expansion and membership agree on all tuples if and only if every slice has a positive step or is empty, or some item expands to nothing and some item matches nothing |
| CoreRange.AcceptedIffExpanded | python/sim/pipe.py:162-267 | for all steps: every core accepts just when its coordinates are expanded, if and only if the two agree on every coordinate that cores have or each leaves out all of them somewhere |
| CoreRange.AgreeingIsConsistent | python/sim/pipe.py:162-267 | so with positive steps a core accepts if and only if its coordinates are in the sender's expansion, in every rank |
| CoreRange.ReceiverCount | python/sim/copyhandlers.py:278-299 | for every destination: the sender's count is the number of receiving cores if and only if it is not a lone index in a tuple and every expanded coordinate is a core's; or, where a negative step makes the two disagree, neither has any |
| CoreRange.NoneAcceptsIff | python/sim/pipe.py:229-260 | no core accepts if and only if some item matches no coordinate that cores have |
| CoreRange.ReceiverCountIsRight | python/sim/copyhandlers.py:287-299 | the count is right for all in-grid destinations of a rank, other than a lone index in a tuple, if and only if `core` and `grid_size` use the same shape in that rank |
| CoreRange.MiddleRanksDisagree | python/sim/corecontext.py:171-176 | a concrete rank in between: a 2x3x4 grid and the range (0, :) |
| CoreRange.LoneIndexIsNeverReceived | python/sim/pipe.py:262-267 | `(k,)` is counted as one receiver and received by no core, while `k` is received by core k alone |
| Fusion.TraceToRoots | lib/Dialect/TTL/IR/TTLOpsUtils.cpp:9-63 | on success the ops are exactly the unattached values the sink is computed from, duplicate-free, topological, the sink last; roots are attached, distinct and used; on failure the first blocked value is reported |
| ElementwiseChains.TracedIff | lib/Dialect/TTL/IR/TTLOpsUtils.cpp:9-63 | tracing succeeds if and only if every value on a chain of unattached operands of unary and binary operations is itself unary, binary or a broadcast of an attached value; the value reported is on such a chain, as not attached exactly if it is a block argument |
| ElementwiseChains.LeftmostFailure | lib/Dialect/TTL/IR/TTLOpsUtils.cpp:44-49 | by kind of operation: which failure is reported, the left operand's before the right one's |
| ElementwiseChains.UnsupportedIff | lib/Dialect/TTL/Transforms/ConvertTTLToCompute.cpp:187-226 | of traced operations only unary and binary ones can lack a tile form, by their opcode |
| Fusion.Merge | lib/Dialect/TTL/IR/TTLOpsUtils.cpp:46-54 | merging two ordered traces is again ordered and holds the union |
| Fusion.FailsIffBlocked | lib/Dialect/TTL/IR/TTLOpsUtils.cpp:9-63 | tracing fails if and only if some value it reaches is blocked, and the value reported is one |
| Fusion.BuildFusedBody | lib/Dialect/TTL/Transforms/ConvertTTLToCompute.cpp:187-226 | on any trace, "operand not mapped" is unreachable; the body is built if and only if every operation has a tile form, each on tile values that stand for what its tensor operation reads |
| Fusion.FusedBodyComputes | lib/Dialect/TTL/Transforms/ConvertTTLToCompute.cpp:187-226 | for any tile semantics, the k-th result of the body at a tile index is that tile of the k-th tensor operation, wherever the fused broadcasts read in place |
| Fusion.FusionPreservesMeaning | lib/Dialect/TTL/Transforms/ConvertTTLToCompute.cpp:187-239 | the yielded tile is the sink's tile of the tensor-level program wherever the fused broadcasts read in place, for any tile semantics |
| Fusion.PreservesMeaningIff | lib/Dialect/TTL/Transforms/ConvertTTLToCompute.cpp:187-239 | and only there: over terms, the free tile algebra, the yielded tile is the sink's if and only if every fused broadcast reads in place |
| Fusion.FusedExpansionDiffers | lib/Dialect/TTL/Transforms/ConvertTTLToCompute.cpp:144-152 | a fused broadcast that expands its input's shape reads another tile than the tensor-level program: a concrete program |
| ContainerLoops.ContainerWritesAreWaited | lib/Dialect/TTL/IR/TTLOpsVerifyUtils.cpp:91-181 | no verdict unless a writer loop and a reader loop match; otherwise whether some matching reader starts at the writer's bound with unit steps and reaches its end |
| ContainerVerdicts.VerdictIffPattern | lib/Dialect/TTL/IR/TTLOpsVerifyUtils.cpp:91-166 | there is a verdict if and only if the insert writes a typed rank-1 tensor at its constant loop's index, the loop yields it, and some constant loop extracts from that result at its index and holds a wait for it |
| ContainerVerdicts.PositiveIff | lib/Dialect/TTL/IR/TTLOpsVerifyUtils.cpp:168-180 | for any number of reader loops, if the writer runs: the verdict is positive if and only if some reader starts where the writer does, both by steps of one, and visits every index the writer does |
| ContainerVerdicts.IdlePositiveIff | lib/Dialect/TTL/IR/TTLOpsVerifyUtils.cpp:168-180 | if the writer never runs: if and only if in addition that reader does not end before it |
| ContainerVerdicts.LongerReaderCovers | lib/Dialect/TTL/IR/TTLOpsVerifyUtils.cpp:170-174 | a reader loop longer than the writer by any number gets a positive verdict |
| ContainerLoops.PositiveVerdictIsRightIff | lib/Dialect/TTL/IR/TTLOpsVerifyUtils.cpp:58-181 | in a semantics of which handle each element holds and which waits run: after a positive verdict every handle written is waited for in every execution if and only if the writer runs at most once or adds to the tensor it yielded before, and a covering loop's wait surely runs or other readers do for it |
| ContainerLoops.AlwaysWaitedIff | lib/Dialect/TTL/IR/TTLOpsVerifyUtils.cpp:87-181 | whatever the verdict: every handle written is waited for in every execution if and only if the writer runs at most once or adds to the tensor it yielded before, and the loops whose wait surely runs together read every decisive index |
| ContainerLoops.WaitThatNeverRuns | lib/Dialect/TTL/IR/TTLOpsVerifyUtils.cpp:58-71 | a program with a positive verdict in which no wait ever runs: it is in an empty loop inside the reader loop |
| ContainerLoops.HandlesThatAreDropped | lib/Dialect/TTL/IR/TTLOpsVerifyUtils.cpp:104-130 | a program with a positive verdict whose writer inserts into the tensor from before the loop, so that a handle is lost |
| ContainerLoops.NegativeVerdictIsWrongIff | lib/Dialect/TTL/IR/TTLOpsVerifyUtils.cpp:168-180 | for any bounds, steps and number of reader loops, a negative verdict is wrong if and only if the writer keeps its handles and the loops whose wait surely runs together read its decisive indices |
| IterSpaces.ContainsIff | lib/Dialect/TTL/IR/TTLOpsVerifyUtils.cpp:168-180 | one loop visits everything another does if and only if the other is empty, or it starts on the other's indices no later, reaches the other's last, and its step divides the other's unless that runs once |
| IterSpaces.CoverIff | lib/Dialect/TTL/IR/TTLOpsVerifyUtils.cpp:139-175 | several loops together visit everything another does if and only if they visit its decisive iterations: those of the first period of the steps, and those that some loop's beginning or end separates from the one a period before |
| IterSpaces.DecisiveAreFew | lib/Dialect/TTL/IR/TTLOpsVerifyUtils.cpp:139-175 | the number of decisive iterations is bounded by the number of loops and their steps, whatever the bounds |
| ContainerLoops.OneReaderVerdict | lib/Dialect/TTL/IR/TTLOpsVerifyUtils.cpp:168-180 | with one reader loop: the verdict is the check on bounds and unit steps; the truth is that the writer keeps its handles, the reader's indices contain the writer's and its wait surely runs, unless the writer never runs |
| TransferVerifier.NegativeVerdictIsConservative | lib/Dialect/TTL/IR/TTLOpsVerifyUtils.cpp:168-180 | a program that gets a negative verdict, and whose copy does not reach a wait, although every handle it writes is waited for in every execution |
| TransferVerifier.TryEnqueueForwardedHandle | lib/Dialect/TTL/IR/TTLOpsVerifyUtils.cpp:183-254 | a use is a wait, or forwards the handle to the at most one value that carries it on |
| TransferVerifier.IsEventuallyWaitedOn | lib/Dialect/TTL/IR/TTLOpsVerifyUtils.cpp:316-345 | the worklist always ends, and succeeds if and only if a waited value is reachable by forwarding edges |
| TransferVerifier.IsDerivedFromCopy | lib/Dialect/TTL/IR/TTLOpsVerifyUtils.cpp:256-312 | the backward walk always ends, and answers whether it meets a copy |
| TransferVerifier.IsValidWaitOperand | lib/Dialect/TTL/IR/TTLOpsVerifyUtils.cpp:347-364 | untyped handles are refused first, then exactly those with no copy behind them |
| TransferVerifier.EdgeIsSource | lib/Dialect/TTL/IR/TTLOpsVerifyUtils.cpp:183-312 | a forward edge is a backward step whose container edge is not pruned, whose loop result is carried by an `scf.yield`, and whose operand is the first of its value in its list, and conversely |
| TransferVerifier.ForwardIsBackward | lib/Dialect/TTL/IR/TTLOpsVerifyUtils.cpp:183-345 | v reaches w forward if and only if walking back from w comes to v by such steps |
| TransferVerifier.Duality | lib/Dialect/TTL/IR/TTLOpsVerifyUtils.cpp:183-345 | whatever the forward walk from a copy reaches, the backward walk from it ends at that copy and no other; the converse when no edge is pruned, no loop has another terminator than `scf.yield` and no value is repeated in a list |
| LoopIndex.LinearizeLoopIndices | include/ttlang/Dialect/Utils/ConversionUtils.h:34-56 | the sum of index times stride products is the row-major number of the indices |
| LoopIndex.ComputeCBTileIndexFromLoops | include/ttlang/Dialect/Utils/ConversionUtils.h:61-79 | only the innermost loops of the buffer's rank count, whatever loops are around them, with any bounds and steps |
| LoopIndex.RunLoopNest | lib/Dialect/TTL/Transforms/ConvertTTLComputeToSCF.cpp:188-213 | the nest executes its body at each point once, the k-th time at the k-th point in row-major order; with a bound of zero, never |
| LoopIndex.LinearIndexCounts | include/ttlang/Dialect/Utils/ConversionUtils.h:34-56 | at any rank the linear index runs 0, 1, 2, ... in iteration order |
| LoopIndex.GetIterationDomain | lib/Dialect/TTL/Transforms/ConvertTTLComputeToSCF.cpp:26-81 | the domain is the first operand shape that no other exceeds in rank, or in elements at equal rank, where an unknown dimension counts as no elements |
| LoopIndex.BcastDomainIsOutput | lib/Dialect/TTL/Transforms/ConvertTTLToCompute.cpp:498-544 | for an accepted broadcast the loops run over the output's shape |
| AcceptedBroadcasts.AcceptedIff | lib/Dialect/TTL/Transforms/ConvertTTLToCompute.cpp:498-544 | a broadcast is accepted if and only if both shapes have rank two, each size is kept or one, and the kind names the sizes that are stretched |
| AcceptedBroadcasts.RefusedFor | lib/Dialect/TTL/Transforms/ConvertTTLToCompute.cpp:498-544 | each error is reported exactly where it is the first of these that fails |
| AcceptedBroadcasts.ReadsStretched | lib/Dialect/TTL/Transforms/ConvertTTLToCompute.cpp:521-544 | an accepted broadcast reads its input at 0 where the size is one and in place elsewhere |
| AcceptedBroadcasts.FusionReadsStretched | lib/Dialect/TTL/Transforms/ConvertTTLToCompute.cpp:144-152 | so does the tensor-level meaning that fusion is compared with, and exactly when that is in place |
| AcceptedBroadcasts.ChosenByKind | lib/Dialect/TTL/Transforms/ConvertTTLTileOpsToTTKernel.cpp:521-638 | for all shapes: a column broadcast whose columns grow is read by the row loop, a row broadcast whose rows grow by the column loop, a scalar one at zero as soon as either size grows; otherwise the loops' row-major index |
| LoopIndex.ChooseInputIndex | lib/Dialect/TTL/Transforms/ConvertTTLTileOpsToTTKernel.cpp:626-638 | the method's choice is the index that the agreement below is about |
| LoopIndex.BcastIndexAgrees | lib/Dialect/TTL/Transforms/ConvertTTLTileOpsToTTKernel.cpp:521-638 | for an accepted broadcast, at every point and under any outer loops, the mapped access is in bounds and the buffer index chosen is its row-major index in the input's shape |
| Matmul.TileMul | python/sim/dfb.py:1494-1497 | each entry of the tile product is the row-by-column sum |
| Matmul.SumOfProducts | python/sim/dfb.py:1491-1500 | the innermost loop sums the K tile products, and has no result exactly when K is 0 |
| Matmul.MultiplyBlocks | python/sim/dfb.py:1447-1503 | which shapes are refused and with which error; otherwise every output tile is the sum of its K tile products |
| Matmul.BlockedIsFlat | python/sim/dfb.py:1487-1503 | for all M, K, N and tile sizes, every entry of the blocked product is that of the flat product of the assembled matrices |
| MatmulBuffers.Step | examples/singlecore_matmul.py:42-45 | one iteration of the inner loop waits on both buffers, stores the product of the contents of the two oldest blocks into the reserved block, and pops both |
| MatmulBuffers.AccumulateProducts | examples/singlecore_matmul.py:36-59 | with the factors delivered and consumed pair by pair through two buffers of any size, the reserved block ends with the sum of the products in every tile and can be pushed, and the buffers are as before |
| Matmul.AccumulatedIsFlat | python/sim/dfb.py:612-630 | that sum is entry by entry the product of the whole matrices of which the K-blocks are slices |
| GridRanges.NumCoresToGridRanges | python/utils/block_allocation.py:37-149 | from any in-grid start: fails exactly when the cores do not fit; otherwise at most three disjoint in-grid rectangles, of total area the count, that are exactly that many consecutive cores in row-major or column-major order |
| GridRanges.FillRows | python/utils/block_allocation.py:103-126 | the three row pieces cover the run from the start to where it ends |
| GridRanges.Append | python/utils/block_allocation.py:103-126 | whole rows, or a piece of a row, added where the ranges end keep them exact and disjoint |
| Divisors.Euclid | python/utils/block_allocation.py:302-318 | a prime dividing a product divides one of the factors |
| Divisors.DivisorOfTimesPrime | python/utils/block_allocation.py:314-316 | the divisors of m p are those of m and p times those of m |
| Divisors.GetPossibleProducts | python/utils/block_allocation.py:302-318 | from the prime factors of n: exactly the divisors of n, strictly increasing |
| BlockAllocation.MaximumBlockDimIsExact | python/utils/block_allocation.py:321-342 | a dimension is at most the returned maximum if and only if twice the A and B blocks and the C block are at most 400 tiles |
| BlockAllocation.WithSubblock | python/utils/block_allocation.py:346-367 | the subblock is the first choice in priority order that divides the block, there always is one, and it is the best by area, longer side and height |
| Subblocks.FirstIsBest | python/utils/block_allocation.py:346-367 | without the list: the first choice that divides the block is, of all subblocks of at most eight tiles that do, the one with the largest area, then the shortest longer side, then the larger height |
| Subblocks.BestIsUnique | python/utils/block_allocation.py:346-367 | there is only one such subblock |
| BlockAllocation.LargePart | python/utils/block_allocation.py:405-415 | the part of a tile count that each core must take and the rest multiply to the count; a prime of the count divides the first if it exceeds the grid's size and else the second |
| BlockAllocation.FitsGridIff | python/utils/block_allocation.py:436-438 | blocks that divide the tile counts fit the grid if and only if its cores together hold all tiles |
| BlockAllocation.PickFree | python/utils/block_allocation.py:419-441 | the free dimension is the largest admissible one within the budget |
| BlockAllocation.LargeM | python/utils/block_allocation.py:423-443 | case 1: a result is within grid and budget with the largest block_w; none is returned only if no admissible block_w fits the grid |
| BlockAllocation.LargeN | python/utils/block_allocation.py:445-465 | case 2: the same for block_h |
| BlockAllocation.FirstFit | python/utils/block_allocation.py:466-487 | case 3: the first block_w that fits the grid with the block_h left by the loops |
| BlockAllocation.FirstFitIsSmallResult | python/utils/block_allocation.py:472-487 | in case 3 a result is found if any pair of divisors is within grid and budget, and a result is within the budget if and only if there is such a pair |
| BlockAllocation.StaleBlockExceedsBudget | python/utils/block_allocation.py:472-487 | the input on which the only possible result, with a stale block_h, is over the budget |
| BlockAllocation.GetLargeMatmulParams | python/utils/block_allocation.py:376-490 | any nonzero result divides Mt and Nt, has dividing subblocks and fits the grid; the three cases' guarantees, among them when the budget holds |
| WorkSplit.CoreList | python/sim/ttnnsim.py:702-713 | the nested append loops list the first cores in row-wise or column-wise order |
| WorkSplit.NextCore | python/sim/ttnnsim.py:702-713 | row-wise the core after another is its right neighbour or the first of the next row, column-wise the lower neighbour or the first of the next column |
| WorkSplit.CoreIsInGrid | python/sim/ttnnsim.py:702-713 | and all of them are in the grid |
| WorkSplit.SplitWorkToCores | python/sim/ttnnsim.py:668-769 | as many cores as useful, in order; shares differ by at most one and add up to the units |
| WorkSplit.SplitWorkToRanges | python/sim/ttnnsim.py:668-800 | the same over the cores of a set of ranges, in the order of the ranges |
| WorkSplit.CountsItsCores | python/sim/ttnnsim.py:164-168 | exactly which ranges `num_cores` counts right |
| WorkSplit.IntervalsAreConsecutive | examples/multicore_matmul.py:73-90 | each core's interval starts where the one before ends |
| WorkSplit.ShareOfCore | examples/multicore_matmul.py:73-90 | in closed form: the first cores, as many as units are left over, have one unit more than the quotient, and each core starts where so many have been given out |
| WorkSplit.SharesPartitionUnits | examples/multicore_matmul.py:73-90 | every unit has exactly one owner, and only used cores own any |
| TileCopy.Tensor.GetTile | python/sim/tensoraccessor.py:130-164 | a tile is the elements of its slice, cut off at the tensor's end |
| TileCopy.Tensor.SetTile | python/sim/tensoraccessor.py:166-192 | writes the elements under the tile and no other, stretching sizes of one, and refuses sizes that do not stretch |
| TileCopy.Tensor.OneTileEach | python/sim/tensoraccessor.py:130-192 | every element is under exactly one tile, for dimensions of one or a multiple of 32 |
| TileCopy.TensorToBlock | python/sim/copyhandlers.py:318-355 | which sizes are refused; otherwise the k-th tile of the block is the k-th tile of the tensor |
| TileCopy.BlockToTensor | python/sim/copyhandlers.py:364-403 | when it succeeds, and that every tile of the tensor is then the block's, stretched where its sizes are one |
| TileCopy.CopyRoundTrip | python/sim/copyhandlers.py:332-403 | tiles that are a tensor's, placed in a tensor of its sizes, reproduce every element |
| TileCopy.RoundTrip | python/sim/copyhandlers.py:318-403 | the two handlers in sequence, through two views of one window: exactly when they succeed, and that the second tensor is then the first |
| TileElements.ElementOfBlock | python/sim/tensoraccessor.py:130-164 | element (x, y) of a copied tensor is entry (x % 32, y % 32) of tile number (x / 32) cols + y / 32 |
| TileElements.SizesInTiles | python/sim/copyhandlers.py:318-355 | sizes of one and multiples of 32 are accepted, and count as the tiles that cover them |
| TileElements.StoredIff | python/sim/tensoraccessor.py:166-192 | a tile is stored if and only if each of its sizes is the slice's or one |
| TileElements.StoredEntry | python/sim/tensoraccessor.py:166-192 | and a size of one is repeated |

## Left out

- Pipes in `Network`: schedule independence and deadlock freedom are proved for kernels over dataflow buffers; a pipe's `can_wait` does not depend on the receiving core alone, and receives without a core identity are not modelled.
- One producer and one consumer thread per buffer is assumed by `Network` (`WellWired`), as the programs do and the code does not check; writes to tensors are modelled as the thread's own output.
- `DataflowBuffer.reset`, reconfiguring a buffer identifier to another capacity, the buffer-identifier table, statistics, and `consumer_waiting` / `producer_reserving`, which carry no data.
- Timeouts, locks, conditions and events as such: waiting is a guard, and a timeout is the guard failing.
- Diagnostics, error formatting and source locations of the scheduler; an exception is the value `Raised`.
- Views that alias a source tensor: `GetTile` returns values, so a tile does not change with its tensor.
- Block arithmetic other than `store` and `matmul`: `_apply_binary_op` and shape broadcasting are thin wrappers over torch.
- Fusion.BuildFusedBody: data types of tiles, the output buffer search and the erasing of fused operations are not part of it; an operand without a tile value is one error here for broadcasts too, which the theorem makes unreachable.
- Direct lowering of an operation with attached operands is the one-operation case of a fused body and is not repeated; store lowering, destination-register assignment and synchronisation insertion are not modelled.
- WorkSplit.SplitWorkToRanges: ranges turned inside out, which `num_cores` counts but no loop lists, are excluded; `WorkSplit.CountsItsCores` says which they are.
- A slice with step zero, which Python's `range` and `%` refuse.
- GridRanges.NumCoresToGridRanges: the two trailing coordinates; leading coordinates are constant zeros in the code.
- `block_allocation.split_work_to_cores`, whose one-dimensional boundary is off by one and whose boxes do not describe its groups.
- `if_src` and `if_dst` of a pipe net: filters over the membership test and the flattening that are modelled.
- The contents of a block in `ElementwiseShares` are a function of its place; slicing a tensor into tiles is `TileCopy`, and the two are not put together.
- ContainerLoops.AlwaysWaitedIff: a handle counts as waited for where it is read back from the loop's result and waited for inside the reader loop; a wait reached only through other tensors, in the writer loop or outside the reader loop is the business of `TransferVerifier`. A region of an operation other than `scf.for` may or may not run, and in one execution an inner loop has the same bounds each time.
- Prime factorisation itself: the factors are an input, required to be prime with the right product.
- The element count of 64 bits that compares shapes in the iteration domain: it does not wrap here.
- Elementwise functions, reductions, device execution, language bindings, the command line and performance reports.
