# A verified model of CPF's pipeline planning

CPF turns a loop's dependence graph into a parallel pipeline and emits one function per pipeline stage. This
project models the graph and planning algorithms of that chain in Dafny and proves what they guarantee, for every
input, every run and every reachable state.

To check the whole project, run `dafny verify dfyconfig.toml`.

## What is modelled

| module | part of the system |
|---|---|
| `FiniteSums`, `MachineInts`, `StageKinds` | finite sets and their sums, 32-bit wrap-around, kinds of stages |
| `FlowNetwork`, `AugmentingPaths`, `EdmondsKarp` | flow networks, residual graphs, shortest augmenting paths, maximum flow and minimum cut |
| `SccDag` | the SCC DAG, with `orderedBefore` as strict reachability |
| `StageNetwork`, `ParallelStage` | the non-mergeability network and the parallel stage chosen by its minimum cut |
| `Pipeline` | the pipeline {before} parallel {after} around that stage |
| `Dswp` | the greedy DSWP partition driven by an in-degree map |
| `Clique`, `Planner` | maximum-weight cliques, and the selection of loops that are never active together |
| `CommPlan` | which values a stage executes, rematerializes or consumes |
| `Lowering` | from stages of SCCs to stages of instructions, and on to a prepared strategy |
| `PipelineRun` | runs of the emitted stages over bounded FIFO queues, under every interleaving |
| `Dispatch` | thread counts, the invoke chain and the ON/OFF choice of iterations |
| `SideEntrance` | cloning functions so that no code outside the region of interest refers to it |
| `EventWords`, `Nesting` | words of begin and end events, and the nesting verifier of the points-to profiler |

The chain of results:

1. *Max-flow is min-cut.* Breadth-first search reports zero exactly when the sink is out of residual reach, and
   otherwise the bottleneck of a shortest residual path. Augmenting along it keeps a feasible flow. When the loop
   stops, the total equals the capacity of the residual-reachable cut, and no cut is smaller. Path lengths never
   shrink and every augmentation takes an edge off all shortest paths, so there are fewer augmentations than vertices
   times edges. No word-sized sum wraps; the wrapped entries that the code stores for pairs that are not edges are
   never part of the flow.
2. *The kept stage is sound.* Each good SCC is split into a left and a right vertex. The infinite edges of
   non-mergeable pairs never cross the cut, so no two kept SCCs are non-mergeable, and the order-closure of the
   non-mergeable relation together with flow conservation makes the kept set convex. The discarded good SCCs cost
   at most twice any set whose removal leaves no non-mergeable pair, and at most that set itself when SCCs are
   incompatible only along the order.
3. *The pipeline is acyclic.* Pivoting the remaining SCCs around a convex stage gives stages that partition the SCCs,
   with no dependence from a later to an earlier stage, and no loop-carried dependence inside an SCC of the parallel
   one or on a path between two of them. The parallel stage is a costliest possible one for every profile exactly when
   no loop-carried dependence joins two parallel SCCs.
4. *Planning is complete.* Instruction stages drawn from a forward partition of the SCCs (by either partitioner) are
   ordered: operands and control sources never belong to a later stage than their users. Then every stage ends with
   all operands at hand and all its branches present, the search for a source stage never fails, the source executes
   the value itself, and consumes and produces match one to one on forward queues. Each plan comes about by rounds in
   their order of precedence: branches, then recomputation, then the cheapest least slice or a consume. A parallel stage
   gets no copy of a header phi, and the prepared stages hold the SCCs and have the kinds of the stages chosen.
5. *The emitted stages compute the loop.* In every interleaving over queues of any positive capacity, every
   consume receives the value of the same instruction instance of the original loop, no unfinished state is
   deadlocked, and every run is finite. At the end the queues are empty, the stage of each instruction holds its final
   value, and each access to memory has been executed once per instance, in its own stage alone.
6. *Further results*: DSWP's greedy order and balance bound, optimality of the clique and loop selection, termination
   and behaviour preservation of side-entrance resolution, the bijection of worker ids to stage replicas, which take
   turns, and an exact characterisation of what the nesting verifier accepts and of when it looks at an empty stack. The
   latter speaks of words of events that are balanced, leave begins open, or have a wrong or a stray end.

## Findings

- The test for loop-carried dependences between SCCs is symmetric (`liberty/lib/Orchestration/PSDSWPCritic.cpp`, lines
  140-160; `SccDag.LoopCarriedIsSymmetric`), while the rule it serves is directed. So the comment that the result is
  *the optimal parallel stage* (line 360) does not hold in general: `Pipeline.CarriedPairKeepsNothing` is the smallest
  case, in which nothing is kept although one SCC could be. `Pipeline.BestForEveryProfileIff` gives the exact
  condition, one on the DAG alone: the kept stage is a costliest convex and iteration-local one for every profile if
  and only if no loop-carried dependence joins two parallel SCCs; otherwise some profile makes every set that the
  selection can keep too cheap. A directed test would be optimal, by `ParallelStage.DirectedIsTransitive` and
  `ParallelStage.DiscardedAtMostRemoved`. `Pipeline.SelfIncompatibleIff` says which SCCs are lost: those between the
  ends of such a dependence.
- The thread count of the parallel stage is an unsigned counter. `Pipeline.ThreadsAddUp` and
  `Pipeline.DoallAndPipeline` give the exact conditions: it wraps when the budget is smaller than the number of
  sequential stages, and it is zero when it equals that number, so a worker is left exactly when the budget covers all
  stages. Before the call, a budget of two rules out the wrap and a budget of three guarantees a worker;
  `Pipeline.SandwichStarves` shows that less does not. The emitted counts (`Dispatch.StageThreads`) are all positive and
  add up exactly when there are at least as many threads as stages. The count named *round up* is the rounded-down
  count plus the whole remainder.
- `ebk` adds long weights in an int. `Clique.MaxWeightClique` returns the weight of a heaviest clique exactly when
  no clique weighs 2^31 or more; `Clique.HeavyPairIsMissed` is a pair of compatible vertices for which no clique is
  recorded at all. `Planner.SelectLoops` inherits the condition.
- `verifyNesting` looks at the top of the context stack without a test for emptiness (line 1844 of
  `liberty/lib/PointsToProfiler/Profile.cpp`), which is undefined in C++. The model keeps this outcome apart from a
  violation. `Nesting.UndefinedReadIff` gives the exact condition: some order of traversal comes to it if and only if
  some path without repeated blocks has an end that follows a balanced word. `Nesting.StrayEndUnderflows` is such a
  function, of one block. An accepting run has looked at no empty stack.

## Model

| member | source | states |
|---|---|---|
| `FlowNetwork.FlowBelowCut` | liberty/lib/GraphAlgorithms/EdmondsKarp.cpp:94-128 | a feasible flow is at most the capacity of every cut |
| `FlowNetwork.ClosedSetBoundary` | liberty/lib/GraphAlgorithms/EdmondsKarp.cpp:158-187 | across a residually closed set, outgoing edges are saturated and finite, incoming ones empty |
| `FlowNetwork.ClosedCutIsMinimum` | liberty/lib/GraphAlgorithms/EdmondsKarp.cpp:130-187 | a closed cut has exactly the capacity of the flow, and no cut has less |
| `FlowNetwork.BlockedSink` | liberty/lib/GraphAlgorithms/EdmondsKarp.cpp:42-91 | a closed cut shows that no residual path reaches the sink |
| `FlowNetwork.PushedNet` | liberty/lib/GraphAlgorithms/EdmondsKarp.cpp:116-117 | pushing along one residual edge changes the net outflow of every vertex set by exactly that amount, if it separates the ends |
| `EdmondsKarp.ReverseAdjacency` | liberty/lib/GraphAlgorithms/EdmondsKarp.cpp:29-34 | the reverse lists hold exactly the reversed edges |
| `EdmondsKarp.ScanForward` | liberty/lib/GraphAlgorithms/EdmondsKarp.cpp:49-73 | keeps the search tree of simple residual paths, their bottlenecks and the order of the queue by length; reports the bottleneck of the sink, found one step beyond v, or has found every forward residual neighbour |
| `EdmondsKarp.ScanBackward` | liberty/lib/GraphAlgorithms/EdmondsKarp.cpp:76-88 | the same for edges on which flow can be cancelled; the sink is never found here |
| `EdmondsKarp.FindAugmentingPath` | liberty/lib/GraphAlgorithms/EdmondsKarp.cpp:20-92 | zero if and only if the sink is residually unreachable, and then the found vertices form a closed cut; otherwise the bottleneck of a simple residual path, spelled by the predecessors, than which no residual path is shorter |
| `EdmondsKarp.FoundShortest` | liberty/lib/GraphAlgorithms/EdmondsKarp.cpp:42-71 | when the sink is found, heights given by path lengths rise by at most one along residual edges and by one along the path, so the path is a shortest one |
| `AugmentingPaths.PathIsLong` | liberty/lib/GraphAlgorithms/EdmondsKarp.cpp:42-71 | a residual path has at least as many vertices as the height of its end |
| `AugmentingPaths.TightPath` | liberty/lib/GraphAlgorithms/EdmondsKarp.cpp:101-123 | a path that is still shortest after an augmentation was residual before it |
| `AugmentingPaths.FewerShortEdges` | liberty/lib/GraphAlgorithms/EdmondsKarp.cpp:101-123 | an augmentation along a shortest path leaves strictly fewer edges on paths of that length |
| `AugmentingPaths.OneMoreRound` | liberty/lib/GraphAlgorithms/EdmondsKarp.cpp:101-123 | lengths never shrink, and each augmentation is paid for by one edge of one length |
| `EdmondsKarp.AugmentedTotalFits` | liberty/lib/GraphAlgorithms/EdmondsKarp.cpp:116-122 | the augmented total never exceeds the capacity of the source, so it does not wrap |
| `EdmondsKarp.PushAlong` | liberty/lib/GraphAlgorithms/EdmondsKarp.cpp:111-117 | changes the flow on real edges by exactly the pushed amount in spite of wrap-around on non-edges |
| `EdmondsKarp.Augment` | liberty/lib/GraphAlgorithms/EdmondsKarp.cpp:107-120 | turns a feasible flow of value total into one of value total plus the bottleneck; the residual graph gains edges only against the path and loses one along it |
| `EdmondsKarp.MaxFlow` | liberty/lib/GraphAlgorithms/EdmondsKarp.cpp:94-128 | terminates with a feasible flow whose value is the capacity of a closed cut and at most that of every cut, after at most (vertices - 1) times edges augmentations |
| `EdmondsKarp.ResidualReach` | liberty/lib/GraphAlgorithms/EdmondsKarp.cpp:140-187 | computes exactly the residually reachable vertices |
| `EdmondsKarp.CutVertices` | liberty/lib/GraphAlgorithms/EdmondsKarp.cpp:189-204 | lists exactly the ends of the edges across a set |
| `EdmondsKarp.ComputeMinCut` | liberty/lib/GraphAlgorithms/EdmondsKarp.cpp:130-207 | lists the ends of the edges of a minimum cut whose capacity equals the maximum flow |
| `SccDag.ParallelIffNotCarried` | liberty/lib/Orchestration/PSDSWPCritic.cpp:92-115 | an SCC is classified as parallel if and only if no loop-carried dependence joins two of its instructions or one with itself |
| `SccDag.LoopCarriedIsSymmetric` | liberty/lib/Orchestration/PSDSWPCritic.cpp:136-164 | the test between two SCCs gives the same answer both ways, and holds if and only if a loop-carried edge joins them in either direction |
| `StageNetwork.Pivot` | liberty/lib/Orchestration/PSDSWPCritic.cpp:61-76 | a three-way split that loses and repeats nothing, with precedence for the predecessors |
| `StageNetwork.AddNonMergeable` | liberty/lib/Orchestration/PSDSWPCritic.cpp:241-264 | joins every pair of the two groups by an infinite edge and keeps the rest of the network |
| `StageNetwork.AddTerminalEdges` | liberty/lib/Orchestration/PSDSWPCritic.cpp:290-306 | every good SCC gets its positive finite edges from the source and to the sink, and the adjacency lists match the capacities |
| `StageNetwork.WireBad` | liberty/lib/Orchestration/PSDSWPCritic.cpp:315-326 | joins every good SCC before a bad one with every good SCC after it, adding only non-mergeable pairs |
| `StageNetwork.WireIncompatible` | liberty/lib/Orchestration/PSDSWPCritic.cpp:339-353 | joins everything up to one SCC with everything from the other on |
| `StageNetwork.WireNonMergeable` | liberty/lib/Orchestration/PSDSWPCritic.cpp:308-355 | the pair edges of the network are exactly the non-mergeable relation |
| `StageNetwork.NonMergeableIsClosed` | liberty/lib/Orchestration/PSDSWPCritic.cpp:315-355 | the relation is closed under predecessors on the left and successors on the right |
| `StageNetwork.WiredIsNetwork` | liberty/lib/Orchestration/PSDSWPCritic.cpp:286-358 | the network meets all that the flow code needs: matching adjacency, one-way edges, finite source capacities that fit the word |
| `ParallelStage.PairStaysInside` | liberty/lib/Orchestration/PSDSWPCritic.cpp:357-371 | an infinite edge never leaves the residual-reachable set |
| `ParallelStage.UntouchedIffSplit` | liberty/lib/Orchestration/PSDSWPCritic.cpp:362-371 | the cut touches neither vertex of an SCC if and only if the left one is reachable and the right one is not |
| `ParallelStage.LeftFeedsPartner` | liberty/lib/GraphAlgorithms/EdmondsKarp.cpp:154-187 | if the left vertex is unreachable, its saturated source edge sends flow on to a partner that is unreachable too |
| `ParallelStage.RightFedByPartner` | liberty/lib/GraphAlgorithms/EdmondsKarp.cpp:154-187 | if the right vertex is reachable, its saturated sink edge is fed by a partner that is reachable too |
| `ParallelStage.SplitIsConvex` | liberty/lib/Orchestration/PSDSWPCritic.cpp:290-371 | an SCC between two kept ones is good and kept |
| `ParallelStage.DiscardedBelowCut` | liberty/lib/Orchestration/PSDSWPCritic.cpp:290-306 | the discarded good SCCs cost at most the cut |
| `ParallelStage.RemovalCutCost` | liberty/lib/Orchestration/PSDSWPCritic.cpp:290-355 | a set that hits every non-mergeable pair induces a cut of at most twice its cost |
| `ParallelStage.DiscardedAtMostTwice` | liberty/lib/Orchestration/PSDSWPCritic.cpp:357-371 | the discarded good SCCs cost at most twice any set that hits every non-mergeable pair |
| `ParallelStage.DirectedIsTransitive` | liberty/lib/Orchestration/PSDSWPCritic.cpp:308-355 | if good SCCs are incompatible only along the order, the non-mergeable relation is transitive |
| `ParallelStage.ExactCutCost` | liberty/lib/Orchestration/PSDSWPCritic.cpp:290-355 | for a transitive relation a set that hits every pair induces a cut of at most its own cost |
| `ParallelStage.DiscardedAtMostRemoved` | liberty/lib/Orchestration/PSDSWPCritic.cpp:357-371 | for a transitive relation the discarded good SCCs cost at most any set that hits every non-mergeable pair |
| `ParallelStage.FindMaxGoodStage` | liberty/lib/Orchestration/PSDSWPCritic.cpp:266-381 | the kept SCCs are good, pairwise and individually mergeable, convex; they discard at most twice what any removal must, and no more than any removal when incompatibility follows the order; success if and only if something is kept; the rest is the complement |
| `Pipeline.PivotTwoWay` | liberty/lib/Orchestration/PSDSWPCritic.cpp:78-90 | a two-way split that loses and repeats nothing; predecessors of pivots come before, other successors after, and both sides are in use only if both kinds exist |
| `Pipeline.PivotIsShort` | liberty/lib/Orchestration/PSDSWPCritic.cpp:85-89 | no other split with the predecessors before and the other successors after makes fewer stages |
| `Pipeline.PivotIsForward` | liberty/lib/Orchestration/PSDSWPCritic.cpp:61-90 | around a convex stage no predecessor lands in a later stage than its successor |
| `Pipeline.KeptIsIterationLocal` | liberty/lib/Orchestration/PSDSWPCritic.cpp:328-371 | no loop-carried dependence lies inside a kept SCC, and no dependence path between kept SCCs uses one |
| `Pipeline.AssembledPartition` | liberty/lib/Orchestration/PSDSWPCritic.cpp:465-570 | every SCC is in exactly one of the assembled stages |
| `Pipeline.AssembledForward` | liberty/lib/Orchestration/PSDSWPCritic.cpp:465-570 | no dependence runs from a later assembled stage to an earlier one |
| `Pipeline.PipelineIsSound` | liberty/lib/Orchestration/PSDSWPCritic.cpp:465-570 | the stages partition the SCCs, none is empty or repeats an SCC, no dependence runs backward, and the one parallel stage is convex and iteration-local |
| `Pipeline.ThreadsAddUp` | liberty/lib/Orchestration/PSDSWPCritic.cpp:472-563 | the factors add up to the budget, or to the budget plus 2^32 when the counter runs below zero; they add up and leave the parallel stage a thread if and only if the budget covers all stages |
| `Pipeline.DoallAndPipeline` | liberty/lib/Orchestration/PSDSWPCritic.cpp:451-578 | every pipeline returned is a forward partition with one parallel stage that keeps most of what can run in parallel, and as much as possible when no loop-carried dependence joins parallel SCCs; in that case there is a pipeline if and only if some SCC is parallel; two threads never wrap and three always leave a worker |
| `Pipeline.FindMaxParallelStage` | liberty/lib/Orchestration/PSDSWPCritic.cpp:383-393 | the candidates are exactly the SCCs without a loop-carried dependence inside; those kept are convex and iteration-local; without carried pairs something is kept if and only if some SCC is parallel |
| `Pipeline.ChosenIsCostliest` | liberty/lib/Orchestration/PSDSWPCritic.cpp:357-371 | without carried pairs no convex iteration-local stage costs more than the kept one |
| `Pipeline.CarriedIsNeverBest` | liberty/lib/Orchestration/PSDSWPCritic.cpp:335-371 | with a carried pair there is a profile for which every set that may be kept is beaten by a single SCC |
| `Pipeline.BestForEveryProfileIff` | liberty/lib/Orchestration/PSDSWPCritic.cpp:360-371 | the kept stage is costliest for every profile if and only if no loop-carried dependence joins two parallel SCCs |
| `Pipeline.SandwichStarves` | liberty/lib/Orchestration/PSDSWPCritic.cpp:472-563 | a DAG whose pipeline has three stages: one thread wraps the counter and two leave the parallel stage none |
| `Pipeline.SandwichIsBuilt` | liberty/lib/Orchestration/PSDSWPCritic.cpp:465-570 | that DAG has no carried pair and a parallel SCC, so a pipeline is found for it |
| `Pipeline.KeepsMostMeans` | liberty/lib/Orchestration/PSDSWPCritic.cpp:357-380 | a stage is found whenever a removal costing less than half of the good SCCs exists; with no non-mergeable pair everything good is kept |
| `Pipeline.SelfIncompatibleIff` | liberty/lib/Orchestration/PSDSWPCritic.cpp:136-164 | an SCC is incompatible with itself if and only if it lies between the ends of a loop-carried dependence of two parallel SCCs |
| `Pipeline.CarriedPairKeepsNothing` | liberty/lib/Orchestration/PSDSWPCritic.cpp:360-371 | a two-SCC graph for which nothing is kept although one SCC alone is convex and iteration-local |
| `Dswp.FreeSccExists` | liberty/lib/Orchestration/DSWPCritic.cpp:89-115 | every non-empty remainder of a DAG has an SCC without incoming edges from the remainder |
| `Dswp.IncomingCounts` | liberty/lib/Orchestration/DSWPCritic.cpp:69-78 | the counts start as the number of incoming edges |
| `Dswp.NextLargestFree` | liberty/lib/Orchestration/DSWPCritic.cpp:89-115 | finds an SCC with count zero if there is one, and then the heaviest, the first among equals |
| `Dswp.Place` | liberty/lib/Orchestration/DSWPCritic.cpp:117-136 | keeps every unplaced count equal to the in-edges from unplaced SCCs; no count wraps and placed ones keep their mark |
| `Dswp.GreedyNext` | liberty/lib/Orchestration/DSWPCritic.cpp:89-115 | taking the heaviest SCC with count zero goes on in greedy order: each SCC listed is preferred to every later one whose predecessors were all listed |
| `Dswp.GreedyRest` | liberty/lib/Orchestration/DSWPCritic.cpp:242-260 | so does taking leftovers without weight in traversal order |
| `Dswp.FillStage` | liberty/lib/Orchestration/DSWPCritic.cpp:228-240 | the stage goes on in greedy order, takes a predecessor-closed set, reaches the target with its last SCC and not before, unless nothing is left, and exceeds it by at most the heaviest SCC |
| `Dswp.ProgressStep` | liberty/lib/Orchestration/DSWPCritic.cpp:227-240 | after i full stages at least i shares of the total are placed, unless all is |
| `Dswp.LastStageWeight` | liberty/lib/Orchestration/DSWPCritic.cpp:242-260 | the leftovers taken by the last stage weigh nothing |
| `Dswp.PartitionStages` | liberty/lib/Orchestration/DSWPCritic.cpp:202-267 | every SCC in exactly one stage and listed there once, no stage empty, every edge forward or within a stage, at most numThread stages, each at most total / numThread plus the heaviest SCC; all stages together list the SCCs in greedy order, and each but the last reaches its share with its last SCC and not before |
| `Clique.CliqueWeight` | liberty/lib/GraphAlgorithms/Ebk.cpp:17-19 | the int accumulator holds the low 32 bits of the clique's weight |
| `Clique.MaximalClique` | liberty/lib/GraphAlgorithms/Ebk.cpp:15-26 | when no candidate is left on either list the clique is maximal and the only clique through itself |
| `Clique.Exhausted` | liberty/lib/GraphAlgorithms/Ebk.cpp:28-52 | when only tried candidates are left, every maximal clique through c has been beaten |
| `Clique.Descend` | liberty/lib/GraphAlgorithms/Ebk.cpp:32-44 | restricting both lists to the neighbours of v keeps the search invariant for the clique extended by v |
| `Clique.Search` | liberty/lib/GraphAlgorithms/Ebk.cpp:10-53 | terminates having beaten every maximal clique through c, with a recorded clique of the recorded score |
| `Clique.MaxWeightClique` | liberty/lib/GraphAlgorithms/Ebk.cpp:55-67 | the best score among all maximal cliques, with such a clique, if one scores above -1000, and otherwise none; for non-negative weights the weight of a heaviest clique if and only if every clique weight fits 31 bits |
| `Clique.MaximumIffFits` | liberty/lib/GraphAlgorithms/Ebk.cpp:15-26 | the exact condition under which the 32-bit accumulator does no harm |
| `Clique.HeavyPairIsMissed` | liberty/lib/GraphAlgorithms/Ebk.cpp:17-25 | two vertices of weight 2^30 for which the answer is empty |
| `Planner.CalledFunctions` | liberty/lib/Planner/Planner.cpp:539-549 | the shared-set depth-first search adds only reachable defined functions and leaves every new one closed |
| `Planner.TransitiveCalls` | liberty/lib/Planner/Planner.cpp:557-570 | exactly the defined functions reachable from the calls of the loop |
| `Planner.CallsFunction` | liberty/lib/Planner/Planner.cpp:551-572 | the memoized answer is plain reachability |
| `Planner.MustBeSimultaneouslyActive` | liberty/lib/Planner/Planner.cpp:574-587 | true if and only if one loop contains the other or transitively calls the function that holds it |
| `Planner.ComputeEdges` | liberty/lib/Planner/Planner.cpp:589-625 | a symmetric irreflexive graph joining exactly the loops that need not be active together |
| `Planner.SelectLoops` | liberty/lib/Planner/Planner.cpp:715-716 | the selected loops are pairwise never active together; no such set saves more, and the total is right, if and only if all savings fit 31 bits |
| `CommPlan.HandleControlDeps` | liberty/lib/CodeGen/MTCGStudy.cpp:197-230 | a change adds control sources alone, at least one of them missing; without a change every control source of an included or consumed instruction is included |
| `CommPlan.RematerializeOnce` | liberty/lib/CodeGen/MTCGStudy.cpp:241-301 | copies one operand that is missing outside the replicated part, touches no memory, has its operands at hand and is no header phi of a parallel stage; or there is none |
| `CommPlan.Rematerialize` | liberty/lib/CodeGen/MTCGStudy.cpp:232-239 | repeats such copies, at least one if it reports a change, until none is left |
| `CommPlan.BackSlice` | liberty/lib/CodeGen/MTCGStudy.cpp:303-358 | on success the least set closed under missing operands, of pure instructions and loads, at the exact cost of its weights, loads five-fold, within the budget; on failure, a needed instruction that may not be copied or a needed part that costs too much; terminates on cyclic def-use chains |
| `CommPlan.TrySlice` | liberty/lib/CodeGen/MTCGStudy.cpp:360-388 | a least slice for a missing operand, with its cost relative to that of consuming the value; or every slice is blocked or too costly |
| `CommPlan.SourceExists` | liberty/lib/CodeGen/MTCGStudy.cpp:402-407 | the assertion that some earlier stage has the value never fires |
| `CommPlan.FirstHolderExecutes` | liberty/lib/CodeGen/MTCGStudy.cpp:402-405 | the first stage that has a value executes it and does not relay it |
| `CommPlan.CommunicateValue` | liberty/lib/CodeGen/MTCGStudy.cpp:390-411 | adds one consume, from the first stage that has the value, which executes it |
| `CommPlan.CommunicateOnce` | liberty/lib/CodeGen/MTCGStudy.cpp:413-526 | all missing memory values are consumed at once; without any, a sequential stage copies the cheapest slice if one is cheap enough; otherwise one value is consumed; no change only when nothing is missing |
| `CommPlan.GrowthIsBounded` | liberty/lib/CodeGen/MTCGStudy.cpp:191-194 | the measure that every changing step decreases |
| `CommPlan.FillRound` | liberty/lib/CodeGen/MTCGStudy.cpp:184-195 | one round: control sources if any is missing, else rematerialization as far as it goes, else communication; no change only when the plan is complete |
| `CommPlan.FillOutStage` | liberty/lib/CodeGen/MTCGStudy.cpp:184-195 | terminates; every operand used is available and every control source of an included or consumed instruction is included; the plan comes from the given one by such rounds, and copies neither memory accesses nor, in a parallel stage, header phis |
| `CommPlan.ComputeProducesAndQueues` | liberty/lib/CodeGen/MTCGStudy.cpp:137-154 | a stage produces a value to another if and only if the other consumes it from there with the same flag, and the queues are exactly the pairs that communicate |
| `CommPlan.ReplicateExits` | liberty/lib/CodeGen/MTCGStudy.cpp:37-66 | the replicated instructions are the given ones and exactly the exits of earlier sequential stages |
| `CommPlan.StillOrdered` | liberty/lib/CodeGen/MTCGStudy.cpp:56-63 | replicating earlier exits keeps every operand and control source at or before its user |
| `CommPlan.PreparedStrategy.constructor` | liberty/lib/CodeGen/MTCGStudy.cpp:20-76 | studies every stage of an ordered partition and establishes the whole invariant; every plan is where the rounds lead from the instructions of its stage |
| `CommPlan.PreparedStrategy.Study` | liberty/lib/CodeGen/MTCGStudy.cpp:102-135 | plans one more stage and leaves the earlier plans unchanged |
| `Lowering.InstructionsOf` | liberty/lib/Strategy/PipelineStrategy.cpp:66-78 | the instructions of a stage are those of its SCCs |
| `Lowering.ForwardIsOrdered` | liberty/lib/Strategy/PipelineStrategy.cpp:66-78 | instruction stages drawn from a forward partition of the SCCs are ordered as planning demands |
| `Lowering.LoweredOnce` | liberty/lib/Strategy/PipelineStrategy.cpp:66-78 | every instruction of the loop is in exactly one stage |
| `Lowering.LoweredRealizes` | liberty/lib/Strategy/PipelineStrategy.cpp:66-78 | stage k holds exactly the members of the SCCs of group k, is parallel if and only if its kind says so, and replicates exactly the exits of earlier sequential stages |
| `Lowering.PipelineIsLocal` | liberty/lib/Orchestration/PSDSWPCritic.cpp:543-548 | no loop-carried dependence, between SCCs or inside one, joins two instructions of a parallel stage |
| `Lowering.PreparePipeline` | liberty/lib/Orchestration/PSDSWPCritic.cpp:451-578 | from the SCC DAG to a sound pipeline and a completely prepared strategy that follows it stage by stage in instructions and kinds, with no loop-carried dependence inside the parallel stage; without carried pairs there is one if and only if some SCC is parallel |
| `Lowering.PrepareDswp` | liberty/lib/Orchestration/DSWPCritic.cpp:268-278 | the same from the DSWP partition: the sequential stages of the strategy hold the members of a balanced, greedily listed forward partition, with at most as many stages as threads |
| `PipelineRun.PreparedIsPlumbed` | liberty/lib/CodeGen/MTCGStudy.cpp:137-154 | in a prepared strategy consumes come from strictly earlier executing stages and match the produces |
| `PipelineRun.Operands` | liberty/lib/CodeGen/MTCG.cpp:826-834 | an instruction reads exactly its defined operands, with the values in the registers |
| `PipelineRun.ExecuteComputesInstance` | liberty/lib/CodeGen/MTCG.cpp:826-834 | a copied instruction sees the operand values of the original loop |
| `PipelineRun.ConsumerTakes` | liberty/lib/CodeGen/MTCG.cpp:806-822 | the head of the queue is the value of the instance the consumer is at |
| `PipelineRun.ConsumeKeepsInv` | liberty/lib/CodeGen/MTCG.cpp:806-822 | a consume keeps every queue equal to the values sent and not yet consumed, in order |
| `PipelineRun.ExecuteKeepsInv` | liberty/lib/CodeGen/MTCG.cpp:825-834 | executing a copied instruction keeps the invariant |
| `PipelineRun.SendKeepsInv` | liberty/lib/CodeGen/MTCG.cpp:836-851 | each produce keeps the invariant |
| `PipelineRun.StepKeepsInv` | liberty/lib/CodeGen/MTCG.cpp:796-852 | every step of every stage keeps the invariant |
| `PipelineRun.ReachableInv` | liberty/lib/CodeGen/MTCG.cpp:796-852 | the invariant holds in every state reachable under any scheduling |
| `PipelineRun.EveryStepFollowsOriginal` | liberty/lib/CodeGen/MTCG.cpp:802-851 | in every reachable state a consume or a copy yields the value the original loop computed for that instance |
| `PipelineRun.NoDeadlock` | liberty/lib/CodeGen/MTCG.cpp:802-851 | every reachable unfinished state has an enabled step |
| `PipelineRun.FinishedAgrees` | liberty/lib/CodeGen/MTCG.cpp:802-851 | at the end all queues are empty and every stage's available registers equal the original loop's |
| `PipelineRun.RunsAreFinite` | liberty/lib/CodeGen/MTCG.cpp:802-851 | no schedule makes more steps than one per instruction and one per value sent |
| `PipelineRun.PreparedPipelineIsCorrect` | liberty/lib/CodeGen/MTCG.cpp:796-852 | the stages planned for an ordered partition that holds every traced instruction once never get stuck and agree with the original loop, for every schedule and queue capacity |
| `PipelineRun.UniqueStaysHome` | liberty/lib/CodeGen/MTCGStudy.cpp:241-301 | an instruction that touches memory, is no control source and is not replicated is executed by the stage of the partition and by no other |
| `PipelineRun.ExecutionsAreDone` | liberty/lib/CodeGen/MTCG.cpp:802-851 | a run executes a position in a stage once for each time the stage moves past it, if the stage has a copy, and never otherwise |
| `PipelineRun.PreparedPipelineIsComplete` | liberty/lib/CodeGen/MTCG.cpp:796-852 | at the end the stage of each traced instruction holds its final value, and each such memory access has been executed exactly once per position, in that stage alone |
| `Dispatch.StageThreads` | liberty/lib/CodeGen/MTCGInvocation.cpp:108-153 | sequential stages get one thread, parallel ones an even share, the first of them with the remainder; all counts are positive and add up to the threads if and only if there are at least as many threads as stages |
| `Dispatch.Rounding` | liberty/lib/CodeGen/MTCGInvocation.cpp:262-271 | the rounded-up count and the rounded-down ones share out exactly the parallel threads, in 32-bit arithmetic |
| `Dispatch.Invoke` | liberty/lib/CodeGen/MTCGInvocation.cpp:317-408 | the chain sends a worker to the stage and replica whose offset is its id, past stages without threads; workers beyond the last thread end up in the last stage |
| `Dispatch.OneJobPerWorker` | liberty/lib/CodeGen/MTCGInvocation.cpp:364-407 | a worker id determines stage and replica |
| `Dispatch.EveryReplicaRuns` | liberty/lib/CodeGen/MTCGInvocation.cpp:364-407 | every replica of every stage has a worker |
| `Dispatch.EachIterationRunsOnce` | liberty/lib/CodeGen/MTCG.cpp:490-495 | every iteration of a stage is ON in some worker if and only if the stage has one, and never in two |
| `Dispatch.ReplicasTakeTurns` | liberty/lib/CodeGen/MTCG.cpp:490-495 | as many consecutive iterations as there are replicas give each replica exactly one |
| `SideEntrance.SameStep` | liberty/lib/CodeGen/RoI.cpp:303-328 | a module of clones and its original step alike, call by call |
| `SideEntrance.SameRun` | liberty/lib/CodeGen/RoI.cpp:303-328 | every run of the module maps to the run of the original under the clone-to-original map |
| `SideEntrance.AddClone` | liberty/lib/CodeGen/RoI.cpp:304-324 | adding a clone keeps the module a version of the original |
| `SideEntrance.ReplaceKeepsClone` | liberty/lib/CodeGen/RoI.cpp:327-328 | redirecting a use to the clone keeps the module a version of the original |
| `SideEntrance.FewerEntries` | liberty/lib/CodeGen/RoI.cpp:326-328 | redirecting a use strictly shrinks the side entries |
| `SideEntrance.RoI.Sweep` | liberty/lib/CodeGen/RoI.cpp:52-74 | adds a call-closed set of blocks and functions, contained in every call-closed set that holds the block |
| `SideEntrance.RoI.CloneFunction` | liberty/lib/CodeGen/RoI.cpp:304-324 | a fresh copy of one function, nothing else changed |
| `SideEntrance.RoI.Redirect` | liberty/lib/CodeGen/RoI.cpp:326-328 | one use redirected, fewer side entries, the inside unchanged |
| `SideEntrance.RoI.ResolveOneSideEntrance` | liberty/lib/CodeGen/RoI.cpp:266-375 | decreases uncloned functions, then side entries; otherwise nothing changes and no side entry is left |
| `SideEntrance.RoI.ResolveSideEntrances` | liberty/lib/CodeGen/RoI.cpp:88-92 | terminates, on recursive call graphs too, with no outside use of an inside function, the inside unchanged, and every run equal to the original's modulo clones |
| `EventWords.RunBlock` | liberty/lib/PointsToProfiler/Profile.cpp:1829-1869 | the outcome of the block's events: the context afterwards, a mismatch, or a look at the top of an empty stack |
| `EventWords.BalancedIff` | liberty/lib/PointsToProfiler/Profile.cpp:1829-1869 | events lead from an empty context to an empty context if and only if they are balanced: none, or Begin(c) w End(c) w' with w and w' balanced |
| `EventWords.RunIff` | liberty/lib/PointsToProfiler/Profile.cpp:1829-1869 | the context is exactly the begins left open around balanced words; a mismatch comes if and only if an end follows an open begin of another context and a balanced word; an empty stack is looked at if and only if an end follows a balanced word |
| `Nesting.FirstVisit` | liberty/lib/PointsToProfiler/Profile.cpp:1827-1897 | a violation or an undefined read comes with the path on which it happens; otherwise the traversal goes on as specified |
| `Nesting.AllPathsRecorded` | liberty/lib/PointsToProfiler/Profile.cpp:1797-1827 | with an empty fringe every path of any length arrives with the recorded context |
| `Nesting.Conflict` | liberty/lib/PointsToProfiler/Profile.cpp:1800-1822 | two contexts for one block are a real violation |
| `Nesting.Traverse` | liberty/lib/PointsToProfiler/Profile.cpp:1790-1898 | the loop over paths accepts if and only if every path runs through with agreeing contexts; a violation or an undefined read comes with its path |
| `Nesting.WellNestedIff` | liberty/lib/PointsToProfiler/Profile.cpp:1797-1897 | that every path runs through with agreeing contexts is the same as that its events are balanced up to begins on which all paths to a block agree, and balanced at every return |
| `Nesting.VerifyNesting` | liberty/lib/PointsToProfiler/Profile.cpp:1776-1899 | terminates and accepts if and only if on every path the events are balanced up to open begins, all paths to a block agree on these, and at every return the events are balanced; a reported violation is a wrong end, an open begin at a return or a disagreement; an empty stack is looked at only on a simple path with a stray end, and always when the entry block has one |
| `Nesting.UndefinedReadIff` | liberty/lib/PointsToProfiler/Profile.cpp:1790-1844 | some order of traversal looks at the top of an empty stack if and only if some path without repeated blocks has an end that follows a balanced word |
| `Nesting.WellNestedNeverUnderflows` | liberty/lib/PointsToProfiler/Profile.cpp:1844 | in an accepted function no path has an end that follows a balanced word |
| `Nesting.StrayEndUnderflows` | liberty/lib/PointsToProfiler/Profile.cpp:1844 | a one-block function on which the read is undefined |
| `Nesting.CrossedIsViolated` | liberty/lib/PointsToProfiler/Profile.cpp:1844-1866 | Begin(0) End(1) in one returning block is a violation |

## Left out

- LLVM and NOELLE internals: SCC construction, dominators, alias queries and dependence graphs are inputs. The SCC
  order is given as strict reachability.
- The order in which maps, sets and unordered containers are traversed: wherever the result may depend on it, the
  order is left open, so the results hold for every order.
- The adjustments made after stage selection (`PSDSWPCritic.cpp` from line 604 on), which move instructions by cost
  thresholds; the theorem is about the pipeline before them.
- `cloneRootsIfNecessary`, `swapRootFcnUses` and `createO2CFunctions`: it is assumed that no root function lies in
  the region of interest.
- PHI stitching, exit blocks, live-in structures, recovery code and the choice of post-dominators under speculation:
  all stages follow one common trace.
- Vertex ids and SCC indices are unbounded integers; only weights, counters and thread counts have a width. Where the
  number of SCCs matters, it is taken to be below 2^32.
- `Lowering.PreparePipeline`: that the DAG has an edge for every operand and control dependence between SCCs is an
  input; the adjustment of the stages and the choice of the dependences that cross stages are not modelled.
- `StageNetwork.AddTerminalEdges`: profile weights are inputs, non-negative, and their sum is required to fit the
  64-bit word below the value that stands for infinity.
- `Dswp.FillStage`: weights are integers and the share per thread is compared exactly, where the program uses
  doubles and an int accumulator.
- `CommPlan.BackSlice`: costs are integers compared exactly, the estimated cost of a consume is a non-negative input,
  and relative costs are reals; a value whose communication costs nothing gets relative cost zero, where the program
  would divide by zero. The second computation of the cheapest slice is represented by its first result.
- `CommPlan.PreparedStrategy.Study`: the assertions that a stage has instructions and relevant blocks are not
  modelled, and neither are stage types other than sequential and parallel.
- `PipelineRun.StepKeepsInv`: stages are sequential, so replicated workers and OFF iterations are covered by
  `Dispatch` alone. The effect of memory on an instruction is part of its meaning at a trace position: ordering of
  memory accesses across stages is not modelled.
- `Dispatch.StageThreads`: requires a parallel stage, since the emitted division is by the number of parallel stages;
  the counts for the queues and for the dispatcher are the same formula and are modelled once.
- `Nesting.UndefinedReadIff`: the traversal order is left open, where the program takes the least path in an order that
  depends on the addresses of the blocks.
- `SideEntrance.SameStep`: calls are direct and control choices are given; calls through function pointers, names,
  linkage and the updates of other analyses are not modelled. What a step is follows from `SideEntrance.NeverStuck` and
  `SideEntrance.CallReturns`.
- Profilers, report printing, command-line options, and the strategies and estimators that would add only easy
  members.
