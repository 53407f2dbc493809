/** From stages of SCCs to stages of instructions, and from there to a prepared strategy. */
module Lowering {
  import opened FiniteSums
  import opened MachineInts
  import opened SccDag
  import opened StageKinds
  import opened CommPlan
  import opened PipelineRun
  import ParallelStage
  import StageNetwork
  import Psdswp = Pipeline
  import Dswp

  type Groups = seq<seq<Scc>>

  function MembersOf(dag: Dag, x: Scc): (r: set<Inst>)
    ensures if x in dag.members then (x, r) in dag.members.Items else r == {}
  {
    if x in dag.members then dag.members[x] else {}
  }

  /** i of SCC x needs something of SCC y. */
  ghost predicate Needs(dag: Dag, loop: Loop, deps: seq<Dep>, x: Scc, y: Scc)
  {
    || (exists i, o :: loop.Uses(i, o) && i in MembersOf(dag, x) && o in MembersOf(dag, y))
    || (exists d :: d in deps && d.control && d.dst in MembersOf(dag, x) && d.src in MembersOf(dag, y))
  }

  /** The SCCs share out the instructions of the loop, and the DAG has an edge wherever one SCC needs another. */
  ghost predicate Reflects(dag: Dag, loop: Loop, deps: seq<Dep>)
  {
    && loop.Valid() && ValidDeps(loop, deps)
    && (forall x, i {:trigger i in MembersOf(dag, x)} | i in MembersOf(dag, x) :: x in dag.nodes && i in loop.info)
    && (forall i | i in loop.info :: exists x :: i in MembersOf(dag, x))
    && (forall x, y, i | i in MembersOf(dag, x) && i in MembersOf(dag, y) :: x == y)
    && (forall x, y | x != y && Needs(dag, loop, deps, x, y) :: dag.HasEdge(y, x))
  }

  ghost predicate InGroup(dag: Dag, groups: Groups, k: int, i: Inst)
  {
    0 <= k < |groups| && exists x :: x in groups[k] && i in MembersOf(dag, x)
  }

  /** Stage k holds the instructions of the SCCs of group k. */
  ghost predicate Lowered(dag: Dag, groups: Groups, stages: seq<Stage>)
  {
    && |stages| == |groups|
    && (forall k | 0 <= k < |stages| :: stages[k].replicated == {})
    && (forall k, i | 0 <= k < |stages| :: i in stages[k].instructions <==> InGroup(dag, groups, k, i))
  }

  /** Every SCC is in exactly one group, and no edge runs from a later group to an earlier one. */
  ghost predicate Grouped(dag: Dag, groups: Groups)
  {
    && (forall x | x in dag.nodes :: exists k :: 0 <= k < |groups| && x in groups[k])
    && Dswp.DisjointStages(groups) && Dswp.ForwardStages(dag, groups)
  }

  lemma GroupOf(dag: Dag, groups: Groups, loop: Loop, deps: seq<Dep>, stages: seq<Stage>, i: Inst, x: Scc) returns (k: int)
    requires Reflects(dag, loop, deps) && Lowered(dag, groups, stages) && Grouped(dag, groups) && i in MembersOf(dag, x)
    ensures 0 <= k < |groups| && x in groups[k] && i in stages[k].instructions
  {
    assert x in dag.nodes;
    k :| 0 <= k < |groups| && x in groups[k];
    assert InGroup(dag, groups, k, i);
  }

  /** What an instruction of a stage needs lies in that stage or an earlier one. */
  lemma NeededIsEarlier(dag: Dag, groups: Groups, loop: Loop, deps: seq<Dep>, stages: seq<Stage>, i: Inst, x: Scc, o: Inst, y: Scc, h: int, k: int)
    requires Reflects(dag, loop, deps) && Lowered(dag, groups, stages) && Grouped(dag, groups)
    requires i in MembersOf(dag, x) && o in MembersOf(dag, y) && (x == y || Needs(dag, loop, deps, x, y))
    requires 0 <= h <= k < |stages| && x in groups[h]
    ensures o in Upto(stages, k)
  {
    var g := GroupOf(dag, groups, loop, deps, stages, o, y);
    if x == y {
      assert InGroup(dag, groups, h, o);
      UptoGrows(stages, h, k);
    } else {
      assert dag.HasEdge(y, x);
      var e :| e in dag.edges && e.src == y && e.dst == x;
      assert g <= h;
      UptoGrows(stages, g, k);
    }
  }

  lemma LoweredIsClosed(dag: Dag, groups: Groups, loop: Loop, deps: seq<Dep>, stages: seq<Stage>, k: int)
    requires Reflects(dag, loop, deps) && Lowered(dag, groups, stages) && Grouped(dag, groups) && 0 <= k < |stages|
    ensures ClosedStage(loop, stages, deps, k)
  {
    forall i | i in Upto(stages, k) ensures i in loop.info {
      var h := UptoHasStage(stages, k, i);
      assert InGroup(dag, groups, h, i);
    }
    forall i, o | i in Upto(stages, k) && loop.Uses(i, o) && o in loop.info ensures o in Upto(stages, k) {
      var h := UptoHasStage(stages, k, i);
      assert InGroup(dag, groups, h, i);
      var x :| x in groups[h] && i in MembersOf(dag, x);
      var y :| o in MembersOf(dag, y);
      NeededIsEarlier(dag, groups, loop, deps, stages, i, x, o, y, h, k);
    }
    forall d | d in deps && d.control && d.dst in Upto(stages, k) ensures d.src in Upto(stages, k) {
      var h := UptoHasStage(stages, k, d.dst);
      assert InGroup(dag, groups, h, d.dst);
      var x :| x in groups[h] && d.dst in MembersOf(dag, x);
      var y :| d.src in MembersOf(dag, y);
      NeededIsEarlier(dag, groups, loop, deps, stages, d.dst, x, d.src, y, h, k);
    }
  }

  /** Stages drawn from a forward grouping of the SCCs are ordered, as planning demands. */
  lemma ForwardIsOrdered(dag: Dag, groups: Groups, loop: Loop, deps: seq<Dep>, stages: seq<Stage>)
    requires Reflects(dag, loop, deps) && Lowered(dag, groups, stages) && Grouped(dag, groups)
    ensures Ordered(loop, stages, deps)
  {
    forall k | 0 <= k < |stages| ensures ClosedStage(loop, stages, deps, k) {
      LoweredIsClosed(dag, groups, loop, deps, stages, k);
    }
  }

  /** Each instruction of the loop ends up in exactly one stage. */
  lemma LoweredOnce(dag: Dag, groups: Groups, loop: Loop, deps: seq<Dep>, stages: seq<Stage>, i: Inst)
    requires Reflects(dag, loop, deps) && Lowered(dag, groups, stages) && Grouped(dag, groups) && i in loop.info
    ensures InOneStage(stages, i)
  {
    var x :| i in MembersOf(dag, x);
    var k := GroupOf(dag, groups, loop, deps, stages, i, x);
    assert InStage(stages, i, k);
    forall j | InStage(stages, i, j) ensures j == k {
      assert InGroup(dag, groups, j, i);
      assert x in groups[j];
    }
  }

  /** The instructions of all SCCs of one stage. */
  method InstructionsOf(dag: Dag, sccs: seq<Scc>) returns (insts: set<Inst>)
    ensures forall i :: i in insts <==> exists x :: x in sccs && i in MembersOf(dag, x)
  {
    insts := {};
    for n := 0 to |sccs|
      invariant forall i :: i in insts <==> exists m :: 0 <= m < n && i in MembersOf(dag, sccs[m])
    {
      insts := insts + MembersOf(dag, sccs[n]);
    }
    forall i ensures i in insts <==> exists x :: x in sccs && i in MembersOf(dag, x) {
      if x :| x in sccs && i in MembersOf(dag, x) {
        var m :| 0 <= m < |sccs| && sccs[m] == x;
        assert i in MembersOf(dag, sccs[m]);
      }
    }
  }

  method Lower(dag: Dag, groups: Groups, kinds: seq<StageKind>) returns (stages: seq<Stage>)
    requires |kinds| == |groups|
    ensures Lowered(dag, groups, stages) && forall k | 0 <= k < |stages| :: stages[k].parallel <==> kinds[k] == Parallel
  {
    stages := [];
    for n := 0 to |groups|
      invariant |stages| == n
      invariant forall k | 0 <= k < n :: stages[k].replicated == {} && (stages[k].parallel <==> kinds[k] == Parallel)
      invariant forall k, i | 0 <= k < n :: i in stages[k].instructions <==> InGroup(dag, groups, k, i)
    {
      var insts := InstructionsOf(dag, groups[n]);
      stages := stages + [Stage(kinds[n] == Parallel, insts, {})];
    }
  }

  /** A completely prepared strategy for the loop, whose stages hold every instruction once. */
  ghost predicate Prepared(loop: Loop, deps: seq<Dep>, strategy: PreparedStrategy)
    reads strategy
  {
    && strategy.Valid() && strategy.loop == loop && strategy.deps == deps && |strategy.plans| == |strategy.stages|
    && forall i | i in loop.info :: InOneStage(strategy.stages, i)
  }

  lemma SameHomes(stages0: seq<Stage>, stages: seq<Stage>, i: Inst)
    requires SameStages(stages0, stages) && InOneStage(stages0, i)
    ensures InOneStage(stages, i)
  {
    forall k ensures InStage(stages, i, k) <==> InStage(stages0, i, k) {
      assert 0 <= k < |stages| ==> SameStage(stages0[k], stages[k]);
    }
  }

  /** Stage k holds the instructions of the SCCs of group k, is parallel as its kind says, and replicates exactly the
      exits of earlier sequential stages. */
  ghost predicate Realizes(dag: Dag, groups: Groups, kinds: seq<StageKind>, exits: seq<Inst>, stages: seq<Stage>)
  {
    && |stages| == |groups| == |kinds|
    && (forall k | 0 <= k < |stages| :: stages[k].parallel <==> kinds[k] == Parallel)
    && (forall k, i | 0 <= k < |stages| :: i in stages[k].instructions <==> InGroup(dag, groups, k, i))
    && (forall k, i | 0 <= k < |stages| :: i in stages[k].replicated <==> EarlierExit(stages, exits, k, i))
  }

  lemma LoweredRealizes(dag: Dag, groups: Groups, kinds: seq<StageKind>, exits: seq<Inst>, stages0: seq<Stage>, stages: seq<Stage>)
    requires Lowered(dag, groups, stages0) && |kinds| == |groups| && SameStages(stages0, stages)
    requires forall k | 0 <= k < |stages0| :: stages0[k].parallel <==> kinds[k] == Parallel
    requires forall k, i | 0 <= k < |stages| :: i in stages[k].replicated <==> i in stages0[k].replicated || EarlierExit(stages0, exits, k, i)
    ensures Realizes(dag, groups, kinds, exits, stages)
  {
    forall k | 0 <= k < |stages| ensures stages[k].parallel == stages0[k].parallel && stages[k].instructions == stages0[k].instructions {
      assert SameStage(stages0[k], stages[k]);
    }
    forall k, i | 0 <= k < |stages| ensures EarlierExit(stages, exits, k, i) <==> EarlierExit(stages0, exits, k, i) {
    }
  }

  /** Lowers a forward grouping and plans its communication. */
  method PrepareGroups(dag: Dag, groups: Groups, kinds: seq<StageKind>, loop: Loop, deps: seq<Dep>, exits: seq<Inst>)
    returns (strategy: PreparedStrategy)
    requires Reflects(dag, loop, deps) && Grouped(dag, groups) && |kinds| == |groups|
    ensures fresh(strategy) && Prepared(loop, deps, strategy) && Realizes(dag, groups, kinds, exits, strategy.stages)
  {
    var stages := Lower(dag, groups, kinds);
    ForwardIsOrdered(dag, groups, loop, deps, stages);
    strategy := new PreparedStrategy(loop, stages, deps, exits);
    LoweredRealizes(dag, groups, kinds, exits, stages, strategy.stages);
    forall i | i in loop.info ensures InOneStage(strategy.stages, i) {
      LoweredOnce(dag, groups, loop, deps, stages, i);
      SameHomes(stages, strategy.stages, i);
    }
  }

  ghost predicate GroupsOf(pipeline: seq<Psdswp.Stage>, groups: Groups, kinds: seq<StageKind>)
  {
    && |groups| == |kinds| == |pipeline|
    && forall k | 0 <= k < |pipeline| :: groups[k] == pipeline[k].sccs && kinds[k] == pipeline[k].kind
  }

  method AsGroups(pipeline: seq<Psdswp.Stage>) returns (groups: Groups, kinds: seq<StageKind>)
    ensures GroupsOf(pipeline, groups, kinds)
  {
    groups := seq(|pipeline|, k requires 0 <= k < |pipeline| => pipeline[k].sccs);
    kinds := seq(|pipeline|, k requires 0 <= k < |pipeline| => pipeline[k].kind);
  }

  lemma PipelineIsGrouped(dag: Dag, all: seq<Scc>, pipeline: seq<Psdswp.Stage>, groups: Groups, kinds: seq<StageKind>)
    requires GroupsOf(pipeline, groups, kinds) && forall x | x in dag.nodes :: x in all
    requires Psdswp.Partition(all, pipeline) && Psdswp.Forward(dag, pipeline)
    ensures Grouped(dag, groups)
  {
    forall x | x in dag.nodes ensures exists k :: 0 <= k < |groups| && x in groups[k] {
      var k :| 0 <= k < |pipeline| && x in pipeline[k].sccs;
      assert x in groups[k];
    }
  }

  /** The DAG knows of a loop-carried dependence of j on i. */
  ghost predicate CrossesIterations(dag: Dag, i: Inst, j: Inst)
  {
    || (exists e :: e in dag.edges && e.loopCarried && i in MembersOf(dag, e.src) && j in MembersOf(dag, e.dst))
    || (exists x, d :: InternalOf(dag, x, d) && d.loopCarried && d.from == i && d.to == j)
  }

  ghost predicate InternalOf(dag: Dag, x: Scc, d: Dependence)
  {
    x in dag.dependences && d in dag.dependences[x] && d.from in MembersOf(dag, x) && d.to in MembersOf(dag, x)
  }

  lemma HomeScc(dag: Dag, loop: Loop, deps: seq<Dep>, groups: Groups, k: int, i: Inst, x: Scc)
    requires Reflects(dag, loop, deps) && InGroup(dag, groups, k, i) && i in MembersOf(dag, x)
    ensures x in groups[k]
  {
  }

  /** No loop-carried dependence joins two instructions of an iteration-local group. */
  lemma LocalGroup(dag: Dag, all: seq<Scc>, loop: Loop, deps: seq<Dep>, groups: Groups, k: int, i: Inst, j: Inst)
    requires Reflects(dag, loop, deps) && InGroup(dag, groups, k, i) && InGroup(dag, groups, k, j)
    requires Psdswp.IterationLocal(dag, all, groups[k]) && forall x | x in groups[k] :: x in all
    ensures !CrossesIterations(dag, i, j)
  {
    forall e | e in dag.edges && e.loopCarried && i in MembersOf(dag, e.src) ensures j !in MembersOf(dag, e.dst) {
      HomeScc(dag, loop, deps, groups, k, i, e.src);
      if j in MembersOf(dag, e.dst) {
        HomeScc(dag, loop, deps, groups, k, j, e.dst);
      }
    }
    forall x, d | InternalOf(dag, x, d) && d.from == i ensures !d.loopCarried {
      HomeScc(dag, loop, deps, groups, k, i, x);
    }
  }

  /** No dependence known to the DAG crosses iterations within a parallel stage. */
  ghost predicate ParallelIsLocal(dag: Dag, stages: seq<Stage>)
  {
    forall k, i, j | 0 <= k < |stages| && stages[k].parallel && i in stages[k].instructions && j in stages[k].instructions :: !CrossesIterations(dag, i, j)
  }

  lemma PipelineIsLocal(dag: Dag, all: seq<Scc>, weight: map<Scc, int>, threadBudget: int, pipeline: seq<Psdswp.Stage>, groups: Groups,
                        kinds: seq<StageKind>, loop: Loop, deps: seq<Dep>, exits: seq<Inst>, stages: seq<Stage>)
    requires Reflects(dag, loop, deps) && Psdswp.Outcome(dag, all, weight, threadBudget, pipeline) && GroupsOf(pipeline, groups, kinds)
    requires Realizes(dag, groups, kinds, exits, stages)
    ensures ParallelIsLocal(dag, stages)
  {
    var p :| 0 <= p < |pipeline| && Psdswp.ParallelAt(dag, all, weight, pipeline, p)
      && forall i | 0 <= i < |pipeline| && i != p :: pipeline[i].kind == Sequential;
    forall k, i, j | 0 <= k < |stages| && stages[k].parallel && i in stages[k].instructions && j in stages[k].instructions
      ensures !CrossesIterations(dag, i, j)
    {
      assert k == p && groups[k] == pipeline[p].sccs;
      LocalGroup(dag, all, loop, deps, groups, k, i, j);
    }
  }

  /** Stage by stage, the instructions of the pipeline, with one parallel stage and the exits it needs. */
  ghost predicate Follows(dag: Dag, pipeline: seq<Psdswp.Stage>, exits: seq<Inst>, stages: seq<Stage>)
  {
    exists groups, kinds :: GroupsOf(pipeline, groups, kinds) && Realizes(dag, groups, kinds, exits, stages)
  }

  /** The whole way from the SCC DAG to a prepared {before} parallel {after} pipeline. */
  method PreparePipeline(dag: Dag, all: seq<Scc>, weight: map<Scc, int>, threadBudget: int, loop: Loop, deps: seq<Dep>, exits: seq<Inst>)
    returns (ok: bool, pipeline: seq<Psdswp.Stage>, strategy: PreparedStrategy?)
    requires dag.Valid() && Elems(all) == dag.nodes && Reflects(dag, loop, deps)
    requires StageNetwork.WeightsFit(weight, ParallelStage.Good(all, dag.IsParallel))
    requires 0 < threadBudget < UNSIGNED
    ensures ok <==> strategy != null
    ensures ok ==> Psdswp.Outcome(dag, all, weight, threadBudget, pipeline)
    ensures ok ==> fresh(strategy) && Prepared(loop, deps, strategy)
    ensures ok ==> Follows(dag, pipeline, exits, strategy.stages) && ParallelIsLocal(dag, strategy.stages)
    ensures Psdswp.NoCarriedPair(dag, all) ==> (ok <==> Psdswp.SomeParallel(dag, all))
  {
    forall x ensures x in all <==> x in dag.nodes {
      assert x in Elems(all) <==> x in dag.nodes;
    }
    ok, pipeline := Psdswp.DoallAndPipeline(dag, all, weight, threadBudget, true);
    strategy := null;
    if ok {
      var groups, kinds := AsGroups(pipeline);
      PipelineIsGrouped(dag, all, pipeline, groups, kinds);
      strategy := PrepareGroups(dag, groups, kinds, loop, deps, exits);
      PipelineIsLocal(dag, all, weight, threadBudget, pipeline, groups, kinds, loop, deps, exits, strategy.stages);
    }
  }

  /** The same for the stages of the DSWP partition, all of them sequential. */
  method PrepareDswp(dag: Dag, sccs: seq<Scc>, weight: map<Scc, int>, threadBudget: int, ghost heaviest: int, loop: Loop, deps: seq<Dep>, exits: seq<Inst>)
    returns (groups: Groups, numThread: int, strategy: PreparedStrategy)
    requires dag.Valid() && Dswp.Lists(dag, sccs) && |dag.edges| < Dswp.PLACED && Dswp.HeaviestIs(dag, weight, heaviest)
    requires threadBudget >= 1 && Reflects(dag, loop, deps)
    ensures |groups| <= numThread <= threadBudget && Grouped(dag, groups)
    ensures Dswp.Balanced(weight, groups, numThread, Dswp.WeightOfSet(weight, dag.nodes), heaviest)
    ensures Dswp.Listing(dag, weight, sccs, groups, {}, numThread, Dswp.WeightOfSet(weight, dag.nodes))
    ensures fresh(strategy) && Prepared(loop, deps, strategy)
    ensures Realizes(dag, groups, seq(|groups|, _ => Sequential), exits, strategy.stages)
  {
    groups, numThread := Dswp.PartitionStages(dag, sccs, weight, threadBudget, heaviest);
    forall x | x in dag.nodes ensures exists k :: 0 <= k < |groups| && x in groups[k] {
      assert x in Dswp.Placed(groups);
    }
    strategy := PrepareGroups(dag, groups, seq(|groups|, _ => Sequential), loop, deps, exits);
  }

  /** A strategy prepared this way needs no further hypothesis for its runs to be correct. */
  lemma PreparedRuns(P: Pipeline, loop: Loop, deps: seq<Dep>, strategy: PreparedStrategy)
    requires Prepared(loop, deps, strategy)
    requires P.loop == loop && P.plans == strategy.plans && P.produces == strategy.produces && P.capacity >= 1
    requires forall t | 0 <= t < |P.trace| :: P.trace[t] in loop.info
    ensures Runs(P, strategy)
  {
  }
}
