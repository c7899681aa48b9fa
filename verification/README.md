# OxiONNX: a verified model of its core

This project models the parts of the OxiONNX inference engine whose correctness
rests on loops, mutable state or interleaving, and proves what they promise.
Code that updates variables step by step is written as methods with loops,
arrays and classes, each proved against a specification function or a stated
property; pure selections are functions. `dafny verify dfyconfig.toml` checks
everything.

## What is modelled

**Scheduling a graph** (`Dependencies`, `GraphScheduler`, `GraphExecution`,
`SubgraphCaptures`).
`Graph::topological_sort` is kept as written: the last-writer-wins producer map,
the two loops over inputs sharing one guard, the FIFO queue, the saturating
decrement and the fallback append. A schedule is judged against a plain relation
between node numbers (`DependsOn`). For every graph and known list, duplicate
output names, repeated inputs, self-loops and cycles included, the result is a
permutation of all nodes; the queue emits exactly the nodes with no cycle among
their ancestors, producers first and in nondecreasing longest-path depth, and
what is left over is appended in ascending order. The saturating decrement never
saturates: each counter equals the number of edge occurrences whose producer is
still waiting. `GraphExecution` runs the nodes over a name-to-value environment
with arbitrary, possibly failing operators that read their inputs and whatever
outer names their subgraphs capture. Any two orders that respect inputs and
captures end in the same environment or fail together; the scheduled order,
which is computed from inputs alone, runs like them exactly when it respects
the captures too. `SubgraphCaptures` gives the condition on the graph: every
order the specification of the sort allows does so if and only if each captured
producer is awaited by an input as well or lies at a smaller depth.

**Generating tokens** (`TokenStreaming`, `StreamingRuns`, `SeededCaches`). `TokenStream` is a
class; `Next` is proved equal to a step function on its state, and everything
about whole runs is proved about that function. The main result is a
simulation: for any model whose answer to a cache covering `p` and new ids `q`
is its answer to `p + q`, the stream with a key/value cache returns, call by
call, the items the stream without one returns, whatever the calls to `next`
and wherever cancellation, EOS, the cap or a model error strike. `SeededCaches`
says exactly which configurations go on from a cache seeded with earlier context.
A small model (`ECHO_MODEL`) shows the hypothesis can be met.

**Device-resident activations** (`DevicePool`, `DeviceQueue`,
`QueueRefinement`, `QueueReadBack`, `ConcatQueue`, `SplitStreams`). Host and device are interleaved steps over device memory, a
queue of pending commands, the scratch pool, the borrows of running dispatches
and the handles to resident activations. Uploads, memsets and kernels only
queue; buffers go back to the pool, and out again, while work on them is still
queued; aliases share an allocation; a kernel may write only part of its output.
Every run refines immediate execution on values kept element by element, `None`
where nobody has written. No allocation is in the pool while anything refers to it, and none
is there twice.

**Weights kept on the device** (`WeightCache`, `DispatchHelpers`). The cache
keyed by initializer name and derived form, with its check of role, origin and
length, returns over every sequence of bindings and clears, with weight maps that
may change from frame to frame, exactly the bytes that resolving the operand
afresh would bind: values on the device first, then host intermediates, then
weights. It takes, exactly, that one name at one address with one length has one
set of bytes. The helpers beside it, the batched transposition and the Gemm bias epilogue, are
proved against index-wise meanings.

**Index arithmetic** (`Shapes`, `Concat`, `StridedGather`, `Broadcast`).
Row-major addressing for any rank, `Concat` as contiguous copies, the odometer
gather of the CoreML example and the channel-broadcast kernel's addressing, each
against the N-dimensional meaning.

**Convolution** (`ConvPlan`, `ConvLoop`, `ConvLaws`, `ConvEpilogue`,
`ConvDispatch`).
Attribute parsing, `auto_pad`, the conditions that decline a node, engine
choice, the grouped, strided, dilated, padded loop nest, bias and fused
activation on device or host, and where the result may stay. `CudaConvBound`
composes all of it: if the foreign engine delivers the correlation of every cell
(plus the bias where it takes one), a claimed node yields, at every cell, the
activation of correlation plus bias.

**The peak tracker** (`MemoryTracker`). `record_alloc` and `record_dealloc` as
single atomic accesses of any number of threads, with stale loads of the peak
and spurious compare-exchange failures.

**Integer casts through f32** (`IntegerCast`). Rounding of integers to binary32,
ties to even (IEEE 754-2019, section 4.3.1), and the saturating way back.

## Where the code and its documentation, or ONNX, part ways

The model follows the code in each case.

1. The broadcast shape test (`oxionnx-cuda/src/broadcast.rs:159-163`) also claims
   small operands that share a non-unit batch or spatial extent with the full
   one. The kernel addresses by channel only, so it reads the element ONNX
   assigns if and only if the small operand holds exactly `small_len` elements
   (`AddressingIsOnnxIff`; `SharedAxisIsMisread` covers the failing family,
   `SharedBatchExample` is one input).
2. The dispatch reports the full operand's shape as the result's
   (`oxionnx-cuda/src/lib.rs:1217`). That is ONNX's result shape if and only if
   the small operand has no more axes than the full one (`ResultShapeIsOnnxIff`,
   `WiderScalarExample`).
3. SAME padding on an empty axis yields one output where the `ceil(in/stride)`
   rule asks for none (`SameOnEmptyAxis`). For every extent of at least 1 the
   rule holds (`SameGivesCeil`).
4. The convolution oracle's clip has no check for an inverted range, the host
   epilogue has one; they agree on every value if and only if the range is not
   inverted (`OracleClipAgreesIff`).
5. `resolve_auto_pad` with a SAME mode and a filter extent of 0 computes
   `kernel - 1` on an unsigned 0 before `problem_from_params` would decline the
   node. The subtraction is a checked step here: `ResolveAutoPad` and
   `ConvParamsFromAttrs` say exactly which nodes underflow, and
   `EmptyFilterExample` is one, next to a node with a declared kernel that is
   declined first.
6. The header of `activation.rs` says every recycle without a fence is gated on
   a unified queue; `recycle_activation`
   (`oxionnx-cuda/src/context.rs:394-398`) is not. The queue results are stated
   for the unified queue. No context the crate builds has another: all of them
   come from `DnnHandle::new` (`oxionnx-cuda/src/context.rs:374-386`), and the
   session turns residency on only when `streams_unified()` holds
   (`src/session/run/sequential.rs:273-283`). `UngatedRecycleRaces` is therefore
   counterfactual: it shows what the missing gate would admit on two queues, from
   a state reached by a run (`OneActivationIsReached`).
7. `finish_output` is documented to fall back to a host result when the buffer
   cannot hold the declared shape; it returns a shape error
   (`oxionnx-cuda/src/activation.rs:399-413`). That is the `HandoffRefused` step.
   `from_owned` checks the allocation's capacity only, so a shape larger than
   the borrow's length but within its capacity is accepted; the refinement then
   promises nothing about the elements past the borrow's own.
8. The sort looks at `node.inputs` only, while a control-flow node also reads the
   outer names its subgraphs capture
   (`oxionnx-ops/src/control_flow/functions.rs:94-123`), which
   `src/session/run/scheduling.rs:120-127` calls real data dependencies. A branch
   on an early condition whose body reads a deep intermediate is scheduled before
   that value exists, in every order the sort may return (`LateCaptureExample`,
   `DeeperCaptureIsMissed`). The condition a caller checks on the graph is
   `CapturesCovered`: all orders `IsSchedule` allows respect captures, and run
   like those that do, if and only if it holds (`SchedulesRespectIffCovered`,
   `SchedulesRunLikeIffCovered`). `IsSchedule` leaves open which of two
   independent nodes of equal depth comes first; about one returned order
   `RunsLikeIffCapturesRespected` is exact.
9. A seeded cache is documented for resuming a captured one
   (`src/streaming.rs:93-96`), but positions and mask count prompt and tokens
   only. Every model resumes, with the tokens of re-feeding everything, if and
   only if neither is configured (`AlwaysResumesIff`); with either one, and for
   every seed and every prompt of one token, some coherent model starts over
   (`SeedIsForgotten`, `SeededRestartExample`).
10. A slot that reads its operand on the host does not see what the run left on
    the device under that name: the kernel reads the device value, whatever it
    is, if and only if the slot can bind device values (`DeviceValueIsReadIff`;
    `UnreadDeviceValueIsMissed` is one instance, with an initializer of the same
    name). The session decides which values stay on the device
    (`src/session/gpu_activations.rs:207-247`); with such values read back first
    the run's own value is bound (`RunValuesComeFirst`).
11. The origin check of the weight cache cannot tell two tensors of one length at
    one reused address apart, as its documentation admits
    (`ReusedAddressServesStale`). The cache is transparent over all histories on a
    pool of weight maps if and only if that never happens with different bytes
    (`TransparentIffOriginsIdentify`).
12. `is_finished` is documented to report the token cap; `next` returns `None`
    there without setting the flag (`src/streaming.rs:446`). Endings are stated
    through `next`.

## Model

| member | source | states |
|---|---|---|
| GraphScheduler.TopologicalSort | oxionnx-core/src/graph.rs:963-1043 | For every graph and known list: the order is a permutation of all nodes; its first part holds exactly the nodes with no cycle among their ancestors, producers first and in nondecreasing longest-path depth; the rest follows in ascending order |
| GraphScheduler.EdgesOfMeaning | oxionnx-core/src/graph.rs:979-988 | A node depends on `p` exactly when one of its non-empty, not-known inputs has `p` as its last producer |
| GraphScheduler.DependsOnMeaning | oxionnx-core/src/graph.rs:969-1012 | Node i waits for p if and only if one of its inputs is non-empty, not known, among the outputs of p and of no later node |
| GraphScheduler.EdgesInPlainTerms | oxionnx-core/src/graph.rs:969-1012 | The same for any list of names, captures included |
| GraphScheduler.NothingToWaitFor | oxionnx-core/src/graph.rs:979-1014 | A node whose inputs are all omitted, known or written by nobody waits for nothing and has depth 0 |
| GraphScheduler.Producer | oxionnx-core/src/graph.rs:969-975 | The last node that lists the name among its outputs, and none exactly when no node does |
| GraphScheduler.BuildProducers | oxionnx-core/src/graph.rs:969-975 | The map built by overwriting sends each output name to its last writer and has no other keys |
| GraphScheduler.CountInputs | oxionnx-core/src/graph.rs:977-988 | Each counter starts at the node's number of dependency edges, repetitions counted |
| GraphScheduler.BuildDependents | oxionnx-core/src/graph.rs:999-1012 | `dependents[p]` lists node `i` exactly as often as `i` depends on `p`: the two guarded loops describe one edge relation |
| GraphScheduler.RecordInputs | oxionnx-core/src/graph.rs:1000-1012 | Recording one node's inputs extends the mirror of the edge relation by that node's row |
| GraphScheduler.InitialQueue | oxionnx-core/src/graph.rs:1014 | The first queue holds every node with counter 0, once each, and no other |
| GraphScheduler.PopKeeps | oxionnx-core/src/graph.rs:1017-1019 | Popping a node turns its outgoing edge occurrences into pending decrements; the counter invariant is kept |
| GraphScheduler.ReleaseKeeps | oxionnx-core/src/graph.rs:1020-1029 | A decrement always meets a positive counter, so saturation never happens, and a node is enqueued when its counter reaches 0, never twice |
| GraphScheduler.ReadyToPush | oxionnx-core/src/graph.rs:1025-1028 | A node whose counter reaches 0 has all its producers emitted |
| GraphScheduler.Release | oxionnx-core/src/graph.rs:1019-1030 | The release loop keeps the counter and depth invariants for the popped node's dependents |
| GraphScheduler.Drain | oxionnx-core/src/graph.rs:1017-1031 | The drained queue leaves no pending edge, and the emitted order is layered by depth |
| GraphScheduler.PushKeepsLayers | oxionnx-core/src/graph.rs:1014-1031 | Because the queue is FIFO, a pushed node is exactly one layer deeper than the node just popped, and the queue spans at most two layers |
| GraphScheduler.LayersAreDepthOrdered | oxionnx-core/src/graph.rs:1014-1031 | Layered emission means nondecreasing longest-path depth |
| GraphScheduler.DrainedIsClean | oxionnx-core/src/graph.rs:1017-1034 | When the queue is empty, the emitted nodes are exactly those with no cycle among their ancestors |
| GraphScheduler.ConcludeQueuePhase | oxionnx-core/src/graph.rs:1017-1031 | The queue phase emits each such node once, producers first, in depth order |
| GraphScheduler.AppendMissing | oxionnx-core/src/graph.rs:1033-1040 | The fallback completes any duplicate-free prefix to a permutation, in ascending order |
| Dependencies.ProducersFirstIsClean | oxionnx-core/src/graph.rs:1017-1031 | A node listed after all its producers, all the way down, has no cycle among its ancestors |
| Dependencies.LeftoverHasCycle | oxionnx-core/src/graph.rs:1033-1034 | If every node outside a set still waits for a node outside it, each of them has a cycle among its ancestors and some of them lies on one |
| Dependencies.FiniteDepth | oxionnx-core/src/graph.rs:1014-1031 | Without cycles the depth of a node is bounded by the number of nodes |
| GraphExecution.ScheduleRespectsIffAcyclic | oxionnx-core/src/graph.rs:1033-1042 | The returned order puts every producer first if and only if the dependency relation is acyclic |
| GraphExecution.FallbackIsUnclean | oxionnx-core/src/graph.rs:1033-1040 | A node sits in the appended part if and only if some ancestor of it lies on a cycle |
| GraphExecution.FallbackMeansCycle | oxionnx-core/src/graph.rs:1033-1040 | If anything is appended, a node of the appended part lies on a real cycle |
| GraphExecution.ScheduleMeaning | oxionnx-core/src/graph.rs:963-1043 | In every schedule of an acyclic graph, the last writer of a named, not known input runs before its reader |
| GraphExecution.ShadowedKnownExample | oxionnx-core/src/graph.rs:990-998 | Two nodes reading each other's output, one of the names known: every schedule runs the reader of the known name first |
| GraphExecution.BindLookup | oxionnx-ops/src/control_flow/functions.rs:126-130 | Zipping outputs with results changes exactly the named outputs a result reached, the last repetition winning |
| GraphExecution.ResultsLand | oxionnx-ops/src/control_flow/functions.rs:126-130 | Result k is found under output k, unless the name repeats later |
| GraphExecution.OthersStay | oxionnx-ops/src/control_flow/functions.rs:126-130 | Names no result reached keep what they had |
| GraphExecution.BoundWhenEnough | oxionnx-ops/src/control_flow/functions.rs:126-130 | An operator returning a result per output binds every named output |
| GraphExecution.WriterRunsBefore | oxionnx-core/src/graph.rs:963-1043 | With unique, not-known output names, the writer of anything a node reads runs earlier in any order that respects inputs and captures |
| GraphExecution.RunSettles | oxionnx-ops/src/control_flow/functions.rs:67-131 | After a completed run every node's outputs are its operator applied to the final values of all it reads, inputs and captures, and nothing else changed |
| GraphExecution.RunMeaning | oxionnx-ops/src/control_flow/functions.rs:67-131 | After a completed run each node's operator was given, argument by argument, the final value of each input and then each capture, and each result lies under the output of its position |
| GraphExecution.HandedOnArgument | oxionnx-ops/src/control_flow/functions.rs:80-130 | A node that returns its r-th argument leaves exactly the final value of its r-th read under that output |
| GraphExecution.ReadsFromMeaning | src/session/run/scheduling.rs:123-127 | With captures counted, a node waits for the last writer of each name among its inputs or captures |
| GraphExecution.ReadsFinalValues | oxionnx-ops/src/control_flow/functions.rs:80-123 | At its turn a node reads, as inputs and as captured names, exactly the values they have at the end |
| GraphExecution.RunFollows | oxionnx-ops/src/control_flow/functions.rs:67-131 | Any order that respects inputs and captures reproduces a settled environment, so no operator fails on it |
| GraphExecution.PartExtends | oxionnx-ops/src/control_flow/functions.rs:126-130 | Binding a settled node's results to what the nodes before it left gives what the nodes up to it leave |
| GraphExecution.OrderIndependent | oxionnx-ops/src/control_flow/functions.rs:67-131 | Any two orders of all nodes that respect inputs and captures end in the same environment, or both fail |
| GraphExecution.ScheduledRun | oxionnx-core/src/graph.rs:963-1043 | When the returned order respects captures as well, executing it equals any other respecting order, and everything a node reads already has its final value |
| SubgraphCaptures.RunsLikeIffCapturesRespected | oxionnx-core/src/graph.rs:979-1012 | The returned order runs like an order respecting inputs and captures, for all operators and environments, if and only if it puts captured producers first itself |
| SubgraphCaptures.EarlyReadFails | oxionnx-ops/src/control_flow/functions.rs:80-125 | A node placed before the writer of something it needs finds nothing, and the run fails |
| SubgraphCaptures.NeededIsThere | oxionnx-ops/src/control_flow/functions.rs:80-125 | In a respecting order nothing that is needed is missing: the run completes with every written name bound |
| SubgraphCaptures.CoveredCapturesRespected | src/session/run/scheduling.rs:120-150 | On a graph acyclic in its inputs, captures that are known, unproduced, awaited by an input too or produced at a smaller depth are respected by every order the sort may return |
| SubgraphCaptures.SchedulesRespectIffCovered | oxionnx-core/src/graph.rs:963-1043 | On a graph acyclic in its inputs, every order the specification allows respects captures if and only if all captures are so covered |
| SubgraphCaptures.SchedulesRunLikeIffCovered | oxionnx-core/src/graph.rs:963-1043 | Every such order runs like the orders that respect inputs and captures, for all operators and environments, if and only if all captures are covered |
| SubgraphCaptures.UncoveredIsMissed | oxionnx-core/src/graph.rs:963-1043 | With an uncovered capture, any schedule turns into one, by at most one exchange at equal depth, that runs the capturing node too early |
| SubgraphCaptures.DepthOrderIsSchedule | oxionnx-core/src/graph.rs:1014-1042 | On an acyclic graph the depth-ordered permutations are all schedules |
| SubgraphCaptures.ListedCapturesCovered | src/session/run/scheduling.rs:120-150 | Listing every waiting capture among the inputs is enough |
| SubgraphCaptures.DeeperCaptureIsMissed | src/session/run/scheduling.rs:120-127 | A capture from a deeper node is missed by every order the sort may return |
| SubgraphCaptures.LateCaptureExample | src/session/run/scheduling.rs:120-127 | Conv, Relu and an If on a known condition whose body reads the Relu: every schedule fails where the listed order succeeds |
| TokenStreaming.ArgmaxIsUnique | src/streaming.rs:515-530 | At most one index is the least index of the maximum (or 0 when nothing exceeds negative infinity, NaN never winning) |
| TokenStreaming.ArgmaxOf | src/streaming.rs:520-530 | The scan returns that index for every row, the empty and the all-NaN row included |
| TokenStreaming.LastPositionLogits | src/streaming.rs:490-513 | What comes back is the last whole row of the data, as long as the last axis |
| TokenStreaming.LastRowIff | src/streaming.rs:490-513 | A row comes back if and only if there are one to three axes, the last is not empty and the data is one or more whole rows |
| TokenStreaming.ReadPassMeaning | src/streaming.rs:404-426 | From the model's answer a pass takes the last row of the named logits and, for each cache input, its binding's output in that answer; it fails exactly on an absent output or logits that have no last row |
| TokenStreaming.Refresh | src/streaming.rs:406-417 | The next cache exists if and only if every bound `present` output came back, with exactly the bound inputs as its names; otherwise the model is invalid |
| TokenStreaming.RefreshCache | src/streaming.rs:406-417 | The loop over the bindings computes that cache, failing at the first absent output |
| TokenStreaming.Generate | src/streaming.rs:261-293 | A stream starts if and only if the prompt is non-empty and every configured name is declared; it starts with the initial cache and no tokens |
| TokenStreaming.InitialMapsBindings | src/streaming.rs:279-284 | The cache starts with each binding's own initial tensor |
| TokenStreaming.TokenStream.constructor | src/streaming.rs:285-292 | A new stream holds its prompt and cache, nothing generated, not finished |
| TokenStreaming.TokenStream.Step | src/streaming.rs:376-439 | A successful pass appends the arg-max of the last logits row of the model's answer to this call's feeds, with its index, and takes the cache from that answer; a failed one changes nothing |
| TokenStreaming.TokenStream.Next | src/streaming.rs:445-467 | State and item after a call are those of the step function: cap, cancellation, error and EOS each end the stream as documented |
| StreamingRuns.NextMeaning | src/streaming.rs:445-467 | Every call, case by case: nothing once finished or at the cap; a tripped cancellation, a model error, an absent output or malformed logits end the stream with that error and change nothing else; otherwise the token is taken from the answer as stated |
| StreamingRuns.RunShape | src/streaming.rs:445-467 | In every run: at most `max_new_tokens` tokens, one per call while the stream lives, and EOS only as the last token |
| StreamingRuns.TokenItems | src/streaming.rs:376-467 | The item of call k has index k, is the arg-max of the last logits row of the model's answer to that call's feeds, and the cache comes from the same answer; an error or cancellation leaves cache and tokens unchanged |
| StreamingRuns.EndIsForever | src/streaming.rs:445-467 | After `None`, an error or EOS, every later call returns `None` |
| StreamingRuns.FeedsUncoveredSuffix | src/streaming.rs:356-373 | With a cache, the ids fed are exactly the suffix of prompt and tokens the cache does not cover, and never empty |
| StreamingRuns.FeedsMatchSequence | src/streaming.rs:376-402 | With or without a cache, ids, positions and mask fed to the model are the sequence from the first uncovered element on, its index range and the full length; the cache is fed unchanged |
| TokenStreaming.RefreshMapsBindings | src/streaming.rs:406-417 | Each `past` input receives its own binding's `present` output, the last binding's where several share an input |
| StreamingRuns.CachedPass | src/streaming.rs:362-439 | For a coherent model, one cached pass gives the logits and cache of the seed and the whole sequence |
| StreamingRuns.PlainPass | src/streaming.rs:362-439 | Without a cache, one pass gives the logits of the whole sequence |
| StreamingRuns.StaysInStep | src/streaming.rs:376-467 | One `next` on both streams yields equal items and keeps the simulation: same tokens, same ending, cache covering the seed and all but the last token |
| StreamingRuns.CachedStreamMatchesPlain | src/streaming.rs:362-467 | For every run and every cancellation pattern, the cached stream and the uncached stream on seed and prompt return equal items call by call; a seed is allowed when neither positions nor mask are configured |
| StreamingRuns.GenerateTokens | src/streaming.rs:301-309 | The collected result is the tokens of the run, or the first error |
| StreamingRuns.CollectedTokens | src/streaming.rs:301-309 | A successful collection has no EOS before its end, and stops short of the cap only with EOS |
| StreamingRuns.CollectedAreItems | src/streaming.rs:301-309 | The collected tokens are those of the calls, in order |
| StreamingRuns.CachedGenerationMatchesPlain | src/streaming.rs:301-309 | Collecting from both streams gives the same tokens or the same error |
| SeededCaches.AlwaysResumesIff | src/streaming.rs:376-396 | With names kept apart: every coherent cached stream on a seeded cache gives, call by call, the items of re-feeding seed and prompt, if and only if there is no seed or neither positions nor mask (or no token is asked for) |
| SeededCaches.SeedIsForgotten | src/streaming.rs:386-396 | With a mask or positions, for every seed and one-token prompt, a declared, coherent model whose first item is that of an unseeded stream |
| SeededCaches.SaysFirstIff | src/streaming.rs:378-396 | The mask's length or the last position tells the model the count of prompt and tokens, nothing of the seed |
| SeededCaches.CountingIsCoherent | src/streaming.rs:376-439 | The model that answers by that count is coherent with its cache |
| SeededCaches.SeededRestartExample | src/streaming.rs:93-96 | One configuration with a mask and one with positions, both meeting the conditions, on which a seed is not resumed |
| StreamingRuns.EchoIsCoherent | src/streaming.rs:356-373 | The coherence hypothesis is met by a concrete cached model |
| DevicePool.SizeClass | oxionnx-cuda/src/residency.rs:126-128 | A class is a power of two that holds the request, wasting less than a factor of two above the floor |
| DevicePool.Newest | oxionnx-cuda/src/residency.rs:321-350 | The buffer reused is the most recently returned one of the class; none exactly when the class is empty |
| DevicePool.WithoutShrinks | oxionnx-cuda/src/residency.rs:321-350 | Taking a buffer lowers the idle bytes by its size and only its own class's count |
| DevicePool.Pool.constructor | oxionnx-cuda/src/residency.rs:301-307 | A new pool is empty and within its bounds |
| DevicePool.Pool.Acquire | oxionnx-cuda/src/residency.rs:321-350 | A request gets its class's newest idle buffer, removed from the pool, or a fresh allocation of the class; the bounds hold |
| DevicePool.Pool.Release | oxionnx-cuda/src/residency.rs:353-374 | A returned buffer is kept unless the class or byte bound would be passed; the bounds hold |
| QueueRefinement.DrainedAppend | oxionnx-cuda/src/activation.rs:36-42 | In-order execution: queueing a command is applying it after everything already queued |
| QueueRefinement.DrainedElsewhere | oxionnx-cuda/src/activation.rs:36-42 | Queued commands that do not mention an allocation neither read nor change it |
| QueueRefinement.DeviceRefines | oxionnx-cuda/src/activation.rs:36-42 | The device executing its front command changes no value the host can later see |
| QueueRefinement.EnqueueRefines | oxionnx-cuda/src/activation.rs:36-42 | A queued write to part or all of a borrow changes exactly the written elements of that borrow's value and no other owner's |
| QueueRefinement.UploadRefines | oxionnx-cuda/src/residency.rs:500-530 | A queued upload has the effect of writing the captured numbers at once |
| QueueRefinement.ZeroFillRefines | oxionnx-cuda/src/residency.rs:555-575 | A queued memset has the effect of clearing the borrow at once |
| QueueRefinement.DispatchRefines | oxionnx-cuda/src/activation.rs:325-347 | A queued kernel over borrows, resident handles and their aliases, writing all or part of its output, computes from the values its operands have now |
| QueueRefinement.AcquirePooledRefines | oxionnx-cuda/src/residency.rs:321-350 | Reusing a pooled buffer with work still queued on it disturbs no live value |
| QueueRefinement.AcquireFreshRefines | oxionnx-cuda/src/residency.rs:321-350 | A fresh allocation, whatever it contains, disturbs no live value |
| QueueRefinement.FreedRefines | oxionnx-cuda/src/residency.rs:603-619 | Freeing an allocation nothing refers to, once its work is done, disturbs no live value |
| QueueRefinement.ReleasedRefines | oxionnx-cuda/src/residency.rs:353-374 | Returning a buffer to the pool without a fence disturbs no live value |
| QueueRefinement.BorrowRemoved | oxionnx-cuda/src/residency.rs:595-619 | Letting a borrow go leaves its allocation referred to by nothing |
| QueueRefinement.HandleRemoved | oxionnx-cuda/src/activation.rs:181-183 | Letting the last handle go leaves its allocation referred to by nothing; with an alias alive it does not |
| QueueRefinement.HandedOnContents | oxionnx-cuda/src/activation.rs:100-112 | Whatever shape the capacity admits, every written element it covers is seen |
| QueueRefinement.HandoffRefines | oxionnx-cuda/src/activation.rs:388-398 | Handing a borrow over as a resident tensor keeps its elements, for every shape the capacity admits |
| QueueRefinement.SharedRefines | oxionnx-cuda/src/activation.rs:151-173 | An alias or share has the same value and recycles nothing |
| QueueRefinement.RetireRefines | oxionnx-cuda/src/activation.rs:438-442 | Retiring a borrow whose work is still queued changes no value |
| QueueRefinement.StepRefines | oxionnx-cuda/src/activation.rs:28-47 | Every host or device step refines the step of immediate execution and reads the same numbers |
| QueueRefinement.RunRefinesImmediate | oxionnx-cuda/src/activation.rs:28-47 | For every interleaving, each read-back returns, at every written element, what executing every step at once on plain values returns |
| QueueRefinement.FreshRefines | oxionnx-cuda/src/residency.rs:1147-1156 | The empty system refines the empty environment |
| QueueRefinement.AlwaysOwned | oxionnx-cuda/src/context.rs:388-398 | In every run from the empty system, no allocation is pooled while referred to, none is pooled twice, a borrow is exclusive and no queued command refers to freed memory |
| QueueRefinement.QueueDrains | oxionnx-cuda/src/residency.rs:1251-1300 | A fence is always possible: the device can empty any queue, reaching exactly the drained memory |
| QueueRefinement.WaitsAreInvisible | oxionnx-cuda/src/activation.rs:360-370 | Device steps between two host steps mean nothing to immediate execution |
| QueueRefinement.PlacementIsInvisible | oxionnx-cuda/src/activation.rs:380-429 | A result read back at once and one left on the device under any admitted shape and read later are the same numbers at every written element |
| QueueReadBack.UploadLands | oxionnx-cuda/src/residency.rs:500-530 | Element i of the uploaded data becomes element i of the borrow, the rest of it and every other value stay |
| QueueReadBack.ZeroFillLands | oxionnx-cuda/src/residency.rs:555-575 | A cleared borrow holds zeros and nothing else changes |
| QueueReadBack.KernelLands | oxionnx-cuda/src/activation.rs:36-42 | Element i of the output becomes what the kernel gives for i from the operands' numbers, or stays if it gives none |
| QueueReadBack.HandlesKeepElements | oxionnx-cuda/src/activation.rs:100-173 | A handed-over borrow, its alias and its share have the borrow's elements, one by one |
| QueueReadBack.ReadsWhatItMeans | oxionnx-cuda/src/activation.rs:202-208 | A step, any device progress and a read-back return the value the step means |
| QueueReadBack.UploadReadsBack | oxionnx-cuda/src/activation.rs:28-47 | In every run, numbers uploaded to a borrow come back first, each in its place, however the device caught up |
| QueueReadBack.KernelReadsBack | oxionnx-cuda/src/activation.rs:28-47 | In every run, a kernel over operands of known numbers gives back, wherever it writes, what it makes of them |
| QueueReadBack.UploadCanBeRead | oxionnx-cuda/src/residency.rs:1251-1300 | What fits a borrow can always be uploaded and, after enough device steps, read |
| ConcatQueue.CopyIs | oxionnx-cuda/src/concat.rs:207-210 | One queued device-to-device copy replaces exactly its range of the output's value |
| ConcatQueue.RunsInPlace | oxionnx-cuda/src/concat.rs:199-215 | Runs queued one after the other all end up in place, none undoing another |
| ConcatQueue.ConcatOnQueue | oxionnx-cuda/src/concat.rs:199-215 | Queueing every run, in any order, computes the concatenation whatever the output held |
| SplitStreams.HostQueues | oxionnx-cuda/src/context.rs:388-398 | Dispatch, recycle, reacquire and upload leave the kernel and the upload to its operand's allocation both queued |
| SplitStreams.OneActivationIsReached | oxionnx-cuda/src/activation.rs:380-398 | The state the race starts from is reached by a run from an empty context |
| SplitStreams.UngatedRecycleRaces | oxionnx-cuda/src/context.rs:384-398 | Were those two on different queues, which no context the crate builds has, the kernel's result would be the activation's number in one device order and the next borrower's in the other |
| WeightCache.ResidentWeights.Acquire | oxionnx-cuda/src/residency.rs:806-906 | For one thread: no entry that is there ever changes; a key appears only on a first sighting of non-empty bytes under an identity; the bytes are the caller's unless a slot agrees in role, origin, length and form |
| WeightCache.ResidentWeights.Resident | oxionnx-cuda/src/residency.rs:920-940 | A resident operand is reported exactly for an entry of that name and form with the same role, origin and length, and its bytes are served |
| WeightCache.ResidentWeights.Clear | oxionnx-cuda/src/residency.rs:981-995 | Clearing leaves no entry |
| WeightCache.TransposeComputes | oxionnx-cuda/src/dispatch_helpers.rs:121-139 | The transposed form a cache slot holds is the one array the transposition can produce |
| WeightCache.BindOperand | oxionnx-cuda/src/lib.rs:580-605 | Binding takes a value left on the device where the slot can, else asks the cache, transposes and uploads: the specified binding |
| WeightCache.CacheFreeMeaning | oxionnx-cuda/src/lib.rs:571-605 | The bytes of a request are, in order, the device value's where the slot takes one, else the host intermediate's, else the weight's, and for a transposed request rows and columns of each block are exchanged |
| WeightCache.BindKeepsFaithful | oxionnx-cuda/src/residency.rs:806-906 | A binding keeps every entry equal to the bytes its key, origin and form named in some weight map seen |
| WeightCache.LateInsertKeepsFaithful | oxionnx-cuda/src/residency.rs:884-905 | When two first sightings race, the later insert replaces the earlier one and every entry still holds bytes its key named |
| WeightCache.BindIsCacheFree | oxionnx-cuda/src/residency.rs:659-682 | On faithful entries a binding returns the cache-free bytes whenever name, address and length identify the bytes |
| WeightCache.StaysFaithful | oxionnx-cuda/src/residency.rs:806-940 | Over every sequence of bindings, with changing weights, and clears, every entry stays so |
| WeightCache.CachedBindsAreCacheFree | oxionnx-cuda/src/dispatch_helpers.rs:49-79 | After any such sequence, a binding has exactly the bytes a cache-free resolution, device values first, would have the kernel read |
| WeightCache.TransparentIffOriginsIdentify | oxionnx-cuda/src/residency.rs:659-682 | Over every history drawing on a pool of weight maps each binding has its cache-free bytes, in both forms, if and only if name, address and length identify the bytes in that pool |
| WeightCache.FixedWeightsIdentify | oxionnx-cuda/src/residency.rs:662-668 | For weights that never change the assumption on origins holds by itself |
| WeightCache.ReusedAddressServesStale | oxionnx-cuda/src/residency.rs:679-682 | Two tensors of one name, length and address: the second is served the first one's bytes, in either form |
| WeightCache.ProducedIsNotCached | oxionnx-cuda/src/dispatch_helpers.rs:31-48 | A name a node has produced a value under, on the host or on the device, is bound afresh and leaves the cache as it was, whatever either holds |
| WeightCache.ConflictIsTransient | oxionnx-cuda/src/residency.rs:839-847 | A slot that disagrees in role, origin or length neither serves a request nor gives way to it |
| WeightCache.RunValuesComeFirst | oxionnx-cuda/src/lib.rs:580-605 | With device values read back for slots that need host bytes, the kernel reads the run's latest value of the name |
| WeightCache.DeviceValueIsReadIff | oxionnx-cuda/src/lib.rs:580-605 | Whatever a value on the device contains, the kernel reads its first elements, if and only if the slot accepts device values |
| WeightCache.UnreadDeviceValueIsMissed | oxionnx-cuda/src/lib.rs:571-577 | One instance: such a slot reads the initializer of the same name |
| WeightCache.SecondBindIsResident | oxionnx-cuda/src/residency.rs:920-940 | Binding anything under an identity once makes the next binding of that form resident |
| DispatchHelpers.MoveOne | oxionnx-cuda/src/dispatch_helpers.rs:132-136 | Writing one element stays in bounds and disturbs no element already moved |
| DispatchHelpers.TransposeRow | oxionnx-cuda/src/dispatch_helpers.rs:132-136 | One row is moved to one column of its block, nothing past the blocks is touched |
| DispatchHelpers.Transpose2dBatched | oxionnx-cuda/src/dispatch_helpers.rs:121-139 | Element (b,r,c) goes to (b,c,r) for all indices; a tail past the blocks stays zero |
| DispatchHelpers.TransposeUndoesItself | oxionnx-cuda/src/dispatch_helpers.rs:117-139 | Transposing back with rows and columns swapped gives the original data |
| DispatchHelpers.TrailingDims | oxionnx-cuda/src/dispatch_helpers.rs:169-178 | With unit leading extents, the bias holds rows times columns elements |
| DispatchHelpers.BroadcastsToIff | oxionnx-cuda/src/dispatch_helpers.rs:164-175 | A bias shape is accepted if and only if ONNX broadcasting it with [m,n] gives [m,n], up to unit axes in front |
| DispatchHelpers.BiasAddress | oxionnx-cuda/src/dispatch_helpers.rs:183-191 | The row and column arithmetic reads the element ONNX broadcasting assigns, in bounds |
| DispatchHelpers.BiasedAt | oxionnx-cuda/src/dispatch_helpers.rs:183-192 | The element of row and column gains beta times the bias at row mod m and column, a unit extent repeating |
| DispatchHelpers.ApplyGemmBias | oxionnx-cuda/src/dispatch_helpers.rs:152-194 | Applied if and only if m and n are positive, the shape broadcasts to [m,n] and the data suffices; then every full row gains beta times the broadcast bias and the tail is untouched; otherwise nothing changes |
| DispatchHelpers.AddRow | oxionnx-cuda/src/dispatch_helpers.rs:184-192 | One row gains its bias, no other element changes |
| DispatchHelpers.AddRows | oxionnx-cuda/src/dispatch_helpers.rs:183-192 | All full rows gain their bias, the tail none |
| Shapes.FlatOfUnravel | examples/coreml_scrfd_smoke.rs:272-296 | Unravelling a position and flattening it gives the position, in range |
| Shapes.UnravelOfFlat | examples/coreml_scrfd_smoke.rs:272-296 | Flattening an index and unravelling it gives the index |
| Shapes.FlatAroundAxis | oxionnx-cuda/src/concat.rs:161-163 | A row-major address splits at any axis into outer, axis and inner parts |
| Concat.NormalizeAxis | oxionnx-cuda/src/concat.rs:63-67 | An axis is accepted exactly in [-rank, rank) and counts from the end when negative |
| Concat.ConcatParamsFromNode | oxionnx-cuda/src/concat.rs:86-129 | Claimed if and only if there are two operands or more of one positive rank, a legal axis and equal extents off it; the geometry then describes the operands |
| Concat.RunInBounds | oxionnx-cuda/src/concat.rs:203-210 | Every copied run lies inside its operand and inside the output |
| Concat.RunsDisjoint | oxionnx-cuda/src/concat.rs:200-215 | Two different runs never overlap in the output |
| Concat.CoveredOnce | oxionnx-cuda/src/concat.rs:199-215 | Every output position lies in exactly one run |
| Concat.ConcatBound | oxionnx-cuda/src/concat.rs:148-215 | Claimed exactly when the operands match the geometry and are long enough; then every run is copied, otherwise the destination is unchanged |
| Concat.CopyAll | oxionnx-cuda/src/concat.rs:199-215 | The nested loops leave every run of every operand in place |
| Concat.CopyOperand | oxionnx-cuda/src/concat.rs:201-213 | Copying one operand keeps every earlier operand's runs |
| Concat.SegmentOf | oxionnx-cuda/src/concat.rs:200-213 | Every index along the axis belongs to exactly one operand |
| Concat.NextOffset | oxionnx-cuda/src/concat.rs:200-213 | Operands lie along the axis in node order, each starting where the one before ends |
| Concat.ConcatAddress | oxionnx-cuda/src/concat.rs:204-208 | The run arithmetic is row-major addressing of the output index and of the operand's local index |
| Concat.CopiedIsConcat | oxionnx-cuda/src/concat.rs:161-215 | The output at every index is the operand's element ONNX `Concat` (Concat-13) assigns |
| Concat.SliceRecovers | oxionnx-cuda/src/concat.rs:161-215 | Slicing segment k back out recovers operand k, index by index |
| StridedGather.DotOfCStrides | examples/coreml_scrfd_smoke.rs:240-246 | The dot product with the C strides is the row-major address |
| StridedGather.ComputeCStrides | examples/coreml_scrfd_smoke.rs:239-246 | The backward loop computes the C strides for any rank |
| StridedGather.TickAdvances | examples/coreml_scrfd_smoke.rs:289-295 | One odometer step moves to the next row-major index and wraps exactly after the last |
| StridedGather.TickInPlace | examples/coreml_scrfd_smoke.rs:289-295 | The carry loop on the array performs that step |
| StridedGather.NextUnravel | examples/coreml_scrfd_smoke.rs:272-296 | The odometer goes from the unravelling of k to that of k + 1 |
| StridedGather.EveryIndexOnce | examples/coreml_scrfd_smoke.rs:272-296 | Each in-range index is visited at exactly one iteration |
| StridedGather.ComputeOffset | examples/coreml_scrfd_smoke.rs:274-277 | The accumulated offset is the dot product of index and strides, negative strides included |
| StridedGather.GatherByOdometer | examples/coreml_scrfd_smoke.rs:272-296 | out[k] is the element at the dot product of unravelled k with the strides |
| StridedGather.ExtractArray | examples/coreml_scrfd_smoke.rs:225-299 | Both paths give that result, reading only addressable memory |
| StridedGather.StraightCopyAgrees | examples/coreml_scrfd_smoke.rs:247-263 | With the C strides the gathered result is the memory in order |
| Broadcast.ChannelPatternIsClaimed | oxionnx-cuda/src/broadcast.rs:113-133 | The [N,C,H,W] against [1,C,1,1] pattern is claimed in both operand orders, with C elements |
| Broadcast.KernelReadsChannel | oxionnx-cuda/src/broadcast.rs:138-171 | Thread i reads the channel coordinate of output i |
| Broadcast.ChannelOperandIsRead | oxionnx-cuda/src/broadcast.rs:138-171 | An operand of exactly `channels` elements is read where ONNX reads it |
| Broadcast.SharedAxisIsMisread | oxionnx-cuda/src/broadcast.rs:159-163 | Any claimed operand with a non-unit extent off the channel axis is misread at some output |
| Broadcast.SharedBatchExample | oxionnx-cuda/src/broadcast.rs:159-163 | One claimed pair and output where the kernel reads element 0 and ONNX element 2 |
| Broadcast.AddressingIsOnnxIff | oxionnx-cuda/src/broadcast.rs:138-171 | For every claimed pair: all reads are ONNX's if and only if the small operand holds exactly `small_len` elements |
| Broadcast.BroadcastComputesOnnx | oxionnx-cuda/src/broadcast.rs:113-184 | Under that condition every output is a op b in the node's own operand order, `reverse_for` restoring Sub and Div |
| Broadcast.ResultShapeIsOnnxIff | oxionnx-cuda/src/lib.rs:1212-1217 | The reported result shape is ONNX's if and only if the small operand has no more axes |
| Broadcast.WiderScalarExample | oxionnx-cuda/src/lib.rs:1212-1217 | A rank-2 scalar against a vector is claimed with the vector's shape, where ONNX asks for rank 2 |
| ConvPlan.SameGivesCeil | oxionnx-cuda/src/conv.rs:340-360 | SAME padding gives output extent exactly ceil(in/stride) for positive extents, saturation included; the sides differ by at most 1 and LOWER mirrors UPPER |
| ConvPlan.SplitSides | oxionnx-cuda/src/conv.rs:353-358 | The sides add up to the total, the odd element at the end for UPPER and at the beginning for LOWER |
| ConvPlan.SameOnEmptyAxis | oxionnx-cuda/src/conv.rs:340-360 | On an empty axis it gives one output where the rule asks for none |
| ConvPlan.ResolveAutoPad | oxionnx-cuda/src/conv.rs:376-408 | Each mode yields its pads (explicit, zero, SAME per axis); it underflows if and only if a SAME mode meets two rank-4 shapes and an empty filter axis, and declines exactly on an unknown mode or, for SAME, a wrong rank |
| ConvPlan.SameIsSymmetricIff | oxionnx-cuda/src/conv.rs:568-571 | SAME pads pass the symmetry test if and only if both axes' totals are even |
| ConvPlan.ReadSpatialPair | oxionnx-cuda/src/conv.rs:299-309 | Accepted exactly when absent or two positive values, which are returned unchanged |
| ConvPlan.ReadPadsQuad | oxionnx-cuda/src/conv.rs:318-330 | Accepted exactly when absent or four non-negative values, which are returned unchanged |
| ConvPlan.ReadActivation | oxionnx-cuda/src/conv.rs:417-427 | Only none, relu and clip are understood; a clip carries the node's bounds, an absent one being infinite |
| ConvPlan.ConvParamsFromAttrs | oxionnx-cuda/src/conv.rs:446-492 | Claimed exactly when every attribute is modelled and nothing underflows; underflows exactly when the geometry attributes pass and SAME meets an empty filter axis; each parameter is the attribute or its ONNX default, SAME_UPPER padding the end and SAME_LOWER the beginning with the odd element |
| ConvPlan.EmptyFilterExample | oxionnx-cuda/src/conv.rs:347-347 | A node that underflows although it would be declined later, and the same node declined first for its declared kernel |
| ConvPlan.AcceptedIsWellPosed | oxionnx-cuda/src/conv.rs:555-644 | An accepted problem is well posed and describes the node's own shapes and pads |
| ConvPlan.WellPosedIsAccepted | oxionnx-cuda/src/conv.rs:555-644 | Every well-posed problem within 32 bits is accepted, as itself |
| ConvPlan.AcceptedSameOutput | oxionnx-cuda/src/conv.rs:376-408 | An accepted SAME convolution has output ceil(in/stride) on both axes |
| ConvLoop.Index4Below | oxionnx-cuda/src/conv_tests.rs:734-744 | Four in-range coordinates address inside the buffer |
| ConvLoop.Index4Injective | oxionnx-cuda/src/conv_tests.rs:734-744 | Different coordinates have different addresses |
| ConvLoop.GroupBounds | oxionnx-cuda/src/conv_tests.rs:707-718 | The group of an output channel exists, and its input channels do |
| ConvLoop.AccumulateRow | oxionnx-cuda/src/conv_tests.rs:726-738 | The filter-column loop adds that row's part of the correlation; every read is in bounds |
| ConvLoop.AccumulateCell | oxionnx-cuda/src/conv_tests.rs:716-740 | Skipping rows and columns outside the input computes the zero-padded correlation of the cell |
| ConvLoop.WriteOne | oxionnx-cuda/src/conv_tests.rs:744-745 | Writing a cell stays in bounds and disturbs no cell already written |
| ConvLoop.OutDims | oxionnx-cuda/src/conv_tests.rs:674-680 | The oracle's output extents are the ones of ONNX `Conv` (Conv-11) |
| ConvLoop.FillRow | oxionnx-cuda/src/conv_tests.rs:715-746 | One output row is completed, all earlier cells kept |
| ConvLoop.NaiveConv2d | oxionnx-cuda/src/conv_tests.rs:700-749 | Every output cell holds the grouped, strided, dilated, zero-padded correlation plus bias |
| ConvLaws.ImpulseResponse | oxionnx-cuda/src/conv_tests.rs:700-749 | For every stride, dilation, padding and grouping: a filter that is 1 at one tap and 0 elsewhere returns the group's input shifted by that tap, zero outside the image |
| ConvLaws.LinearInFilter | oxionnx-cuda/src/conv_tests.rs:716-740 | The result is linear in the filter, cell by cell |
| ConvLaws.BiasAdds | oxionnx-cuda/src/conv_tests.rs:741-743 | A bias adds its channel's element to every cell |
| ConvLaws.WindowsIff | oxionnx-cuda/src/conv_tests.rs:674-680 | An axis has an output position exactly where the dilated window lies inside the padded input |
| ConvLoop.OutputCoveredOnce | oxionnx-cuda/src/conv_tests.rs:710-749 | Every output position is the address of exactly one cell |
| ConvLoop.PointwiseCell | oxionnx-cuda/src/conv.rs:523-539 | What the 1x1 engine is chosen for has the input's extents and is one matrix product per cell |
| ConvLoop.DepthwiseCell | oxionnx-cuda/src/conv.rs:523-539 | What the depthwise engine is chosen for reads a single plane, its own channel's |
| ConvEpilogue.Activated | oxionnx-cuda/src/conv.rs:691-713 | No activation, an inverted range and a clipped NaN change nothing; relu is the positive part with NaN sent to 0; clip lands inside a proper range and moves only values outside it |
| ConvEpilogue.ApplyActivationHost | oxionnx-cuda/src/conv.rs:691-713 | Every element is activated, for every activation and every range |
| ConvEpilogue.AbsentBoundIsNone | oxionnx-cuda/src/conv.rs:421-424 | A bound the node does not carry never moves a value |
| ConvEpilogue.OracleClipAgreesIff | oxionnx-cuda/src/conv_tests.rs:763-771 | The oracle's clip agrees with the host epilogue's on all values if and only if the range is not inverted |
| ConvEpilogue.AddBiasNchw | oxionnx-cuda/src/conv.rs:658-675 | For every batch, channel count and spatial size, each element gains the bias of its own channel, the one the channel-broadcast addressing names |
| ConvEpilogue.BlockChannel | oxionnx-cuda/src/conv.rs:658-675 | The nested block loop and the flat channel formula name the same bias element |
| ConvEpilogue.LaunchActivationEpilogue | oxionnx-cuda/src/conv.rs:744-769 | The device activates everything except clip, which it leaves untouched and reports as owed |
| ConvEpilogue.FinishConv | oxionnx-cuda/src/conv.rs:1072-1161 | For every engine, bias, activation and placement each element is the activation of the engine's value plus the bias the engine did not take; the result stays on the device exactly when asked and nothing is owed on the host |
| ConvEpilogue.ReluOrderIrrelevantIff | oxionnx-cuda/src/conv.rs:1153-1156 | Activating before the bias gives the same number for Relu if and only if the bias is zero or neither the value nor the biased value is negative |
| ConvDispatch.BiasReachesKernelIff | oxionnx-cuda/src/conv.rs:1025-1070 | The launch can depend on the bias if and only if the engine is implicit GEMM: the other two leave the host owing all of it |
| ConvDispatch.OracleIsEngineResult | oxionnx-cuda/src/conv_tests.rs:697-749 | The reference loop nest delivers what is asked of an engine, so the hypothesis can be met |
| ConvDispatch.Execute | oxionnx-cuda/src/conv.rs:1025-1161 | If the engine delivers, engine plus epilogue give activation(correlation + bias) at every cell |
| ConvDispatch.CudaConvBound | oxionnx-cuda/src/conv.rs:885-1161 | Declined exactly when the problem is refused or a buffer is short or the bias mis-shaped; otherwise, if the chosen engine delivers, every cell is activation(correlation + bias); on the device exactly when asked and nothing is owed |
| ConvDispatch.BiasData | oxionnx-cuda/src/conv.rs:947-958 | The bias used is the first out_channels elements, one per channel |
| ConvDispatch.DeliveredIs | oxionnx-cuda/src/conv.rs:1025-1070 | A kernel that writes the correlation of the input with the weight at every cell leaves the buffer the epilogue relies on |
| ConvDispatch.ClaimedExample | oxionnx-cuda/src/conv.rs:895-958 | A grouped, strided, padded 3x3 node with bias and clip is claimed, with a 2 by 2 output |
| ConvDispatch.CellChannel | oxionnx-cuda/src/conv.rs:658-675 | The flat channel formula gives each cell its own output channel |
| ConvDispatch.NodeIsConvolution | oxionnx-cuda/src/conv.rs:1025-1161 | Flat per-element epilogue results are per-cell convolution results |
| MemoryTracker.FetchAddKeepsInv | src/memory_tracker.rs:25-29 | Adding keeps the invariant: the largest total is in the peak or in the hands of a thread still in its loop |
| MemoryTracker.CasOkKeepsInv | src/memory_tracker.rs:30-40 | A successful exchange keeps it and raises the peak |
| MemoryTracker.StepKeepsInv | src/memory_tracker.rs:25-47 | Every atomic step of any thread keeps it and never lowers the peak |
| MemoryTracker.PeakIsCorrect | src/memory_tracker.rs:25-43 | Over every interleaving: the peak never decreases, never exceeds the largest total reached, and equals it whenever no thread is inside its loop |
| MemoryTracker.CountTrailsInFlight | src/memory_tracker.rs:25-43 | The allocation count lags the allocations made by exactly the calls in flight |
| MemoryTracker.BooksBalance | src/memory_tracker.rs:25-47 | After any interleaving current is what was recorded less what was released, and the totals are the balances after each recording |
| MemoryTracker.StaleAndSpuriousAllowed | src/memory_tracker.rs:29-40 | No stale load and no spurious failure the hardware may show is ruled out |
| MemoryTracker.FromStart | src/memory_tracker.rs:16-43 | A fresh tracker after any interleaving: the peak is bounded by the largest total, equals it when no thread is inside its loop, and the count lags by the calls in flight |
| MemoryTracker.GenuineFailureNarrowsGap | src/memory_tracker.rs:30-40 | A genuine exchange failure strictly shrinks new total minus peak; a spurious one leaves it |
| MemoryTracker.GenuineFailuresAreBounded | src/memory_tracker.rs:30-40 | A call suffers at most as many genuine failures as the gap it started with |
| MemoryTracker.LargestIsMaximum | src/memory_tracker.rs:25-43 | The largest total is an upper bound and is reached |
| MemoryTracker.Counters.CompareExchangeWeak | src/memory_tracker.rs:31-36 | It succeeds exactly on the expected value and when the hardware does not fail it spuriously, and reports the actual value |
| MemoryTracker.Counters.RecordAlloc | src/memory_tracker.rs:25-43 | Alone, whatever the number of spurious failures, a call adds to current and count, wrapping at the word size, and raises the peak to the new total if that is larger |
| MemoryTracker.Counters.RecordDealloc | src/memory_tracker.rs:45-47 | Only current changes, by the bytes given back, wrapping below zero |
| MemoryTracker.SpuriousStutter | src/memory_tracker.rs:30-40 | Any number of spurious failures in front of a run changes nothing about it |
| MemoryTracker.LoneCall | src/memory_tracker.rs:25-43 | An uninterrupted run of the atomic steps, with any number of spurious failures, has the effect of the sequential call |
| IntegerCast.RoundsToNearest | oxionnx-core/src/dtype.rs:227-249 | No representable value is nearer to the integer than the one it is converted to |
| IntegerCast.TieGoesToEven | oxionnx-core/src/dtype.rs:227-249 | Where another binary32 value is just as near, the conversion is an even multiple of the spacing |
| IntegerCast.IsRoundingIff | oxionnx-core/src/dtype.rs:227-249 | Being nearest and, on ties, even has exactly one solution among the binary32 values, and the conversion computes it |
| IntegerCast.RoundedIsRepresentable | oxionnx-core/src/dtype.rs:227-249 | The conversion lands on a binary32 value |
| IntegerCast.ExactIffRepresentable | oxionnx-core/src/dtype.rs:227-249 | The conversion is exact if and only if the integer is a binary32 value |
| IntegerCast.MaxReturns | oxionnx-core/src/dtype.rs:306-335 | The top of every integer type is a binary32 value or rounds up, so it comes back |
| IntegerCast.Monotone | oxionnx-core/src/dtype.rs:227-249 | The conversion preserves order |
| IntegerCast.ErrorBound | oxionnx-core/src/dtype.rs:227-249 | The error is at most one part in 2^24 |
| IntegerCast.RoundTripExactly | oxionnx-core/src/dtype.rs:306-335 | An integer returns to its own dtype unchanged if and only if it is a binary32 value or the dtype's maximum |
| IntegerCast.RoundTripSmall | oxionnx-core/src/dtype.rs:306-335 | Every integer up to 2^24 in magnitude returns unchanged |
| IntegerCast.RoundTripFirstLoss | oxionnx-core/src/dtype.rs:306-335 | 2^24 + 1 returns as 2^24 |
| IntegerCast.RoundTripBounds | oxionnx-core/src/dtype.rs:306-335 | The round trip preserves order, stays in the dtype's range and errs by at most one part in 2^24 |
| IntegerCast.CastKeepsIff | oxionnx-core/src/dtype.rs:375-407 | A cast keeps an element if and only if the types agree, or the target holds it and it is a binary32 value or the target's maximum; what lies outside the target goes to the end it passed |
| IntegerCast.CastIsNearest | oxionnx-core/src/dtype.rs:375-407 | An element the target holds goes to a value of the target no farther from it than any binary32 value the target holds |
| IntegerCast.RangeOf | oxionnx-core/src/dtype.rs:306-335 | The ranges that saturation uses are those of two's complement words |

## Left out

- ConvDispatch.CudaConvBound: that the three foreign engines compute the correlation is a hypothesis of its result clause, stated as `EngineDelivers`.
- QueueRefinement.DispatchRefines: a kernel's result is known only when all its operands have been written throughout; a kernel reading half-written operands yields an unknown output.
- QueueRefinement.RunRefinesImmediate: stated for the unified queue, the only kind the crate builds; for split streams there is the counterfactual race in `SplitStreams` only.
- WeightCache.ResidentWeights.Acquire: one thread; between lookup and insert the source releases its lock, so of two concurrent first sightings the last insert wins (`LateInsertKeepsFaithful` covers the entries, not the interleaving).
- SubgraphCaptures.SchedulesRespectIffCovered: about all orders the specification allows; which of two independent nodes of equal depth the queue emits first is fixed by arrival order and not part of the specification.
- ConvPlan.AcceptedIsWellPosed: the engine library's own validation and the tiling plan behind engine choice are not part of this repository; validation is modelled by the conditions its callers rely on and the tiling answer is a parameter.
- Broadcast.BroadcastComputesOnnx: requires the small operand to hold exactly `small_len` elements; without that the result is not ONNX's.
- SeededCaches.AlwaysResumesIff: for configurations whose fed inputs, and whose outputs read, have names of their own; what a name clash does to a model is not stated.
- WeightCache.RunValuesComeFirst: that device values are read back before a slot reads its operand on the host is the session's part and a hypothesis here.
- The atomic steps of the peak tracker count in unbounded integers and give back only what was recorded; the sequential methods wrap at 64 bits. The overflow panic of builds with overflow checks is not modelled.
- Floating-point rounding in kernels, epilogues and logits: reals with infinities and NaN where the branches distinguish them; only the integer-to-f32 rounding is exact.
- Overflow of `usize` products: integers are unbounded, so the checked-multiplication declines do not appear.
- Driver errors, poisoned locks, pinned staging, residency counters and graph capture: they add failure exits and statistics, not results.
- The scratch pool's per-class lists: one list in check-in order with the same choice of buffer.
- Input truncation in `InputBinding::bind`: an operand appears at its logical length.
- When the session retires an activation and where it asks a result to stay: any order and any request are allowed.
- How a subgraph's captured names are collected, and nested scopes: a node comes with the list of outer names its subgraphs read.
- `MemoryTracker::reset` and `summary`, `is_finished`, `size_hint`: three plain stores, text and flags.
- Conversions of f16, bf16, f64 and bool storage: the integer casts are the ones with a bound to prove.
- Graph metadata, operator tables, shape inference, the optimizer, the session runners, CoreML and wgpu calls: tables, glue or foreign code.
