/** Building the three-stage pipeline {before} parallel {after} around the chosen parallel stage. */
module Pipeline {
  import opened FiniteSums
  import opened MachineInts
  import opened SccDag
  import opened StageKinds
  import opened StageNetwork
  import opened ParallelStage

  datatype Stage = Stage(kind: StageKind, sccs: seq<Scc>, factor: int)

  /** Some SCC must come after a pivot. */
  ghost predicate MustFollow(dag: Dag, all: seq<Scc>, pivots: seq<Scc>)
  {
    exists x :: x in all && !BeforeSome(dag, x, pivots) && AfterSome(dag, pivots, x)
  }

  ghost predicate Pivoted(dag: Dag, all: seq<Scc>, pivots: seq<Scc>, before: seq<Scc>, after: seq<Scc>)
  {
    && (forall x | x in all && BeforeSome(dag, x, pivots) :: x in before)
    && (forall x | x in all && !BeforeSome(dag, x, pivots) && AfterSome(dag, pivots, x) :: x in after)
    && (after != [] ==> forall x | x in before :: BeforeSome(dag, x, pivots))
    && (after != [] ==> MustFollow(dag, all, pivots))
    && (forall x :: x in all <==> x in before || x in after)
    && (forall x | x in before :: x !in after)
    && Restricts(before, all) && Restricts(after, all)
  }

  /** Pivoting with the flexible SCCs placed so as to favour shorter pipelines. */
  method PivotTwoWay(dag: Dag, all: seq<Scc>, pivots: seq<Scc>) returns (before: seq<Scc>, after: seq<Scc>)
    ensures multiset(before) + multiset(after) == multiset(all)
    ensures Pivoted(dag, all, pivots, before, after)
  {
    var flexible;
    before, after, flexible := Pivot(dag, all, pivots);
    assert forall x :: x in all <==> x in before || x in after || x in flexible;
    if after == [] {
      before := before + flexible;
    } else {
      Following(dag, all, pivots, after);
      after := after + flexible;
    }
    DisjointRestricts(before, after, all);
  }

  lemma Following(dag: Dag, all: seq<Scc>, pivots: seq<Scc>, after: seq<Scc>)
    requires after != [] && forall x | x in after :: x in all && !BeforeSome(dag, x, pivots) && AfterSome(dag, pivots, x)
    ensures MustFollow(dag, all, pivots)
  {
    var x := after[0];
    assert x in after;
    assert x in all && !BeforeSome(dag, x, pivots) && AfterSome(dag, pivots, x);
  }

  function NonEmpty(s: seq<Scc>): int { if s == [] then 0 else 1 }

  /** No other placement of the SCCs around the pivots makes fewer stages. */
  lemma PivotIsShort(dag: Dag, all: seq<Scc>, pivots: seq<Scc>, before: seq<Scc>, after: seq<Scc>, before': seq<Scc>, after': seq<Scc>)
    requires Pivoted(dag, all, pivots, before, after)
    requires forall x :: x in all <==> x in before' || x in after'
    requires forall x | x in all && BeforeSome(dag, x, pivots) :: x in before'
    requires forall x | x in all && !BeforeSome(dag, x, pivots) && AfterSome(dag, pivots, x) :: x in after'
    ensures NonEmpty(before) + NonEmpty(after) <= NonEmpty(before') + NonEmpty(after')
  {
    if before != [] {
      var x := before[0];
      assert x in before && x in all;
      assert x in before' || x in after';
      assert after != [] ==> BeforeSome(dag, x, pivots) && x in before';
    }
    if after != [] {
      var y :| y in all && !BeforeSome(dag, y, pivots) && AfterSome(dag, pivots, y);
      assert y in after';
    }
  }

  lemma DisjointRestricts(a: seq<Scc>, b: seq<Scc>, all: seq<Scc>)
    requires multiset(a) + multiset(b) == multiset(all) && forall x | x in a :: x !in b
    ensures Restricts(a, all) && Restricts(b, all)
  {
    forall x ensures multiset(all)[x] == multiset(a)[x] + multiset(b)[x] { }
  }

  ghost predicate Convex(dag: Dag, all: seq<Scc>, kept: seq<Scc>)
  {
    forall x, g, y | x in kept && y in kept && g in all && dag.Before(x, g) && dag.Before(g, y) :: g in kept
  }

  /** Which of the three stages holds x: 0 before, 1 kept, 2 after. */
  ghost function StageIndex(before: seq<Scc>, kept: seq<Scc>, x: Scc): nat
  {
    if x in kept then 1 else if x in before then 0 else 2
  }

  /** Pivoting around a convex set never puts a predecessor in a later stage than its successor. */
  lemma PivotIsForward(dag: Dag, all: seq<Scc>, kept: seq<Scc>, before: seq<Scc>, after: seq<Scc>, u: Scc, v: Scc)
    requires StrictOrder(dag) && Convex(dag, all, kept) && kept != []
    requires forall x :: x in all && x !in kept <==> x in before || x in after
    requires forall x | x in before :: x !in after
    requires forall x | x in all && x !in kept && BeforeSome(dag, x, kept) :: x in before
    requires forall x | x in all && x !in kept && !BeforeSome(dag, x, kept) && AfterSome(dag, kept, x) :: x in after
    requires after != [] ==> forall x | x in before :: BeforeSome(dag, x, kept)
    requires u in all && v in all && dag.Before(u, v)
    ensures StageIndex(before, kept, u) <= StageIndex(before, kept, v)
  {
    if v in kept {
      assert BeforeSome(dag, u, kept);
    } else if u in kept {
      assert AfterSome(dag, kept, v);
    } else if v in before && after != [] {
      var p :| p in kept && dag.Before(v, p);
      assert dag.Before(u, p);
    }
  }

  /** No dependence path from one kept SCC to another, nor inside one, crosses an iteration. */
  ghost predicate IterationLocal(dag: Dag, all: seq<Scc>, kept: seq<Scc>)
  {
    && (forall x | x in kept :: !CarriesInside(dag, x))
    && (forall e, x, y | e in dag.edges && e.loopCarried && e.src in all && e.dst in all && x in kept && y in kept ::
          !(dag.AtOrBefore(x, e.src) && dag.AtOrBefore(e.dst, y)))
  }

  /** No stage is empty, and each lists its SCCs as often as `all` does. */
  ghost predicate Listed(all: seq<Scc>, stages: seq<Stage>)
  {
    forall i | 0 <= i < |stages| :: stages[i].sccs != [] && Restricts(stages[i].sccs, all)
  }

  /** Every SCC is in exactly one stage. */
  ghost predicate Partition(all: seq<Scc>, stages: seq<Stage>)
  {
    && (forall i, x | 0 <= i < |stages| && x in stages[i].sccs :: x in all)
    && (forall x | x in all :: exists i :: 0 <= i < |stages| && x in stages[i].sccs)
    && (forall i, j, x | 0 <= i < j < |stages| && x in stages[i].sccs :: x !in stages[j].sccs)
  }

  /** No dependence runs from a later stage to an earlier one. */
  ghost predicate Forward(dag: Dag, stages: seq<Stage>)
  {
    forall e, i, j | e in dag.edges && 0 <= i < |stages| && 0 <= j < |stages|
      && e.src in stages[i].sccs && e.dst in stages[j].sccs :: i <= j
  }

  ghost predicate KeepsMost(dag: Dag, all: seq<Scc>, weight: map<Scc, int>, kept: seq<Scc>)
  {
    DiscardsAtMostTwice(dag, all, weight, dag.IsParallel, dag.LoopCarriedBetween, kept)
  }

  /** SCCs that may form the parallel stage of a forward pipeline. */
  ghost predicate Admissible(dag: Dag, all: seq<Scc>, kept: seq<Scc>)
  {
    (forall x | x in kept :: x in all) && Convex(dag, all, kept) && IterationLocal(dag, all, kept)
  }

  /** No admissible stage costs more than `kept`. */
  ghost predicate Costliest(dag: Dag, all: seq<Scc>, weight: map<Scc, int>, kept: seq<Scc>)
  {
    && Admissible(dag, all, kept)
    && forall other | Admissible(dag, all, other) :: Sum(Elems(other), Cost(weight)) <= Sum(Elems(kept), Cost(weight))
  }

  /** The SCCs without a loop-carried dependence inside. */
  ghost function ParallelSccs(dag: Dag, all: seq<Scc>): set<Scc>
  {
    set x | x in all && !CarriesInside(dag, x)
  }

  lemma GoodAreParallel(dag: Dag, all: seq<Scc>)
    ensures Good(all, dag.IsParallel) == ParallelSccs(dag, all)
  {
    forall x ensures x in Good(all, dag.IsParallel) <==> x in ParallelSccs(dag, all) {
      ParallelIffNotCarried(dag, x);
    }
  }

  ghost predicate Carried(dag: Dag, all: seq<Scc>, e: DagEdge)
  {
    e in dag.edges && e.loopCarried && e.src in ParallelSccs(dag, all) && e.dst in ParallelSccs(dag, all)
  }

  /** No loop-carried dependence joins two parallel SCCs. */
  ghost predicate NoCarriedPair(dag: Dag, all: seq<Scc>)
  {
    forall e :: !Carried(dag, all, e)
  }

  /** Stage p is parallel, admissible, and keeps most of what could run in parallel, or even as much as possible. */
  ghost predicate ParallelAt(dag: Dag, all: seq<Scc>, weight: map<Scc, int>, stages: seq<Stage>, p: int)
    requires 0 <= p < |stages|
  {
    && stages[p].kind == Parallel && Admissible(dag, all, stages[p].sccs) && KeepsMost(dag, all, weight, stages[p].sccs)
    && (NoCarriedPair(dag, all) ==> Costliest(dag, all, weight, stages[p].sccs))
  }

  /** One stage is parallel; all others are sequential. */
  ghost predicate OneParallelStage(dag: Dag, all: seq<Scc>, weight: map<Scc, int>, stages: seq<Stage>)
  {
    exists p :: 0 <= p < |stages| && ParallelAt(dag, all, weight, stages, p)
      && forall i | 0 <= i < |stages| && i != p :: stages[i].kind == Sequential && stages[i].factor == 1
  }

  ghost function Threads(stages: seq<Stage>): int
  {
    if stages == [] then 0 else Threads(stages[..|stages| - 1]) + stages[|stages| - 1].factor
  }

  lemma KeptIsIterationLocal(dag: Dag, all: seq<Scc>, kept: seq<Scc>)
    requires StrictOrder(dag) && StageOk(dag, all, dag.IsParallel, dag.LoopCarriedBetween, kept)
    ensures IterationLocal(dag, all, kept)
  {
    forall e, x, y | e in dag.edges && e.loopCarried && e.src in all && e.dst in all && x in kept && y in kept
      ensures !(dag.AtOrBefore(x, e.src) && dag.AtOrBefore(e.dst, y))
    {
      if dag.AtOrBefore(x, e.src) && dag.AtOrBefore(e.dst, y) {
        assert dag.Before(e.src, e.dst);
        assert e.src in kept && e.dst in kept;
        assert dag.LoopCarriedBetween(e.src, e.dst);
        assert Incompatible(dag, all, dag.IsParallel, dag.LoopCarriedBetween, x, y);
      }
    }
  }

  /** The pipeline made of the non-empty stages among before, kept and after. */
  function Assemble(before: seq<Scc>, kept: seq<Scc>, after: seq<Scc>, factor: int): seq<Stage>
  {
    (if before != [] then [Stage(Sequential, before, 1)] else [])
    + [Stage(Parallel, kept, factor)]
    + (if after != [] then [Stage(Sequential, after, 1)] else [])
  }

  /** The three groups are disjoint and together hold exactly `all`. */
  ghost predicate ThreeWay(all: seq<Scc>, before: seq<Scc>, kept: seq<Scc>, after: seq<Scc>)
  {
    && (forall x | x in kept :: x in all)
    && (forall x :: x in all && x !in kept <==> x in before || x in after)
    && (forall x | x in before :: x !in after)
  }

  lemma StagePosition(all: seq<Scc>, before: seq<Scc>, kept: seq<Scc>, after: seq<Scc>, factor: int, i: nat, x: Scc)
    requires ThreeWay(all, before, kept, after) && i < |Assemble(before, kept, after, factor)|
    ensures var p := if before != [] then 1 else 0;
            x in Assemble(before, kept, after, factor)[i].sccs <==> x in all && i == StageIndex(before, kept, x) + p - 1
  {
    var stages := Assemble(before, kept, after, factor);
    var p := if before != [] then 1 else 0;
    assert stages[p].sccs == kept;
    assert p == 1 ==> stages[0].sccs == before;
    assert after != [] ==> stages[p + 1].sccs == after;
  }

  lemma AssembledPartition(all: seq<Scc>, before: seq<Scc>, kept: seq<Scc>, after: seq<Scc>, factor: int)
    requires ThreeWay(all, before, kept, after)
    ensures Partition(all, Assemble(before, kept, after, factor))
  {
    var stages := Assemble(before, kept, after, factor);
    forall i: nat, x | i < |stages| ensures x in stages[i].sccs <==> x in all && i == StageIndex(before, kept, x) + (if before != [] then 1 else 0) - 1 {
      StagePosition(all, before, kept, after, factor, i, x);
    }
    forall x | x in all ensures exists i :: 0 <= i < |stages| && x in stages[i].sccs {
      var i := StageIndex(before, kept, x) + (if before != [] then 1 else 0) - 1;
      assert x in kept || x in before || x in after;
      assert 0 <= i < |stages|;
      assert x in stages[i].sccs;
    }
  }

  lemma AssembledListed(all: seq<Scc>, before: seq<Scc>, kept: seq<Scc>, after: seq<Scc>, factor: int)
    requires kept != [] && Restricts(before, all) && Restricts(kept, all) && Restricts(after, all)
    ensures Listed(all, Assemble(before, kept, after, factor))
  {
    var stages := Assemble(before, kept, after, factor);
    forall i | 0 <= i < |stages| ensures stages[i].sccs != [] && Restricts(stages[i].sccs, all) {
      assert stages[i].sccs == before || stages[i].sccs == kept || stages[i].sccs == after;
    }
  }

  lemma RestrictsTwice(part: seq<Scc>, some: seq<Scc>, all: seq<Scc>)
    requires Restricts(part, some) && Restricts(some, all) && forall x | x in part :: x in some
    ensures Restricts(part, all)
  {
  }

  lemma AssembledForward(dag: Dag, all: seq<Scc>, before: seq<Scc>, kept: seq<Scc>, after: seq<Scc>, factor: int)
    requires StrictOrder(dag) && ThreeWay(all, before, kept, after)
    requires forall u, v | u in all && v in all && dag.Before(u, v) :: StageIndex(before, kept, u) <= StageIndex(before, kept, v)
    ensures Forward(dag, Assemble(before, kept, after, factor))
  {
    var stages := Assemble(before, kept, after, factor);
    forall e, i, j | e in dag.edges && 0 <= i < |stages| && 0 <= j < |stages| && e.src in stages[i].sccs && e.dst in stages[j].sccs
      ensures i <= j
    {
      StagePosition(all, before, kept, after, factor, i, e.src);
      StagePosition(all, before, kept, after, factor, j, e.dst);
      assert dag.Before(e.src, e.dst);
    }
  }

  lemma AssembledParallel(dag: Dag, all: seq<Scc>, weight: map<Scc, int>, before: seq<Scc>, kept: seq<Scc>, after: seq<Scc>, factor: int)
    requires Admissible(dag, all, kept) && KeepsMost(dag, all, weight, kept)
    requires NoCarriedPair(dag, all) ==> Costliest(dag, all, weight, kept)
    ensures OneParallelStage(dag, all, weight, Assemble(before, kept, after, factor))
  {
    var stages := Assemble(before, kept, after, factor);
    var p := if before != [] then 1 else 0;
    assert stages[p] == Stage(Parallel, kept, factor);
    assert ParallelAt(dag, all, weight, stages, p);
  }

  /** What the choice of the parallel stage guarantees. */
  ghost predicate Chosen(dag: Dag, all: seq<Scc>, weight: map<Scc, int>, kept: seq<Scc>)
  {
    && StageOk(dag, all, dag.IsParallel, dag.LoopCarriedBetween, kept)
    && KeepsMost(dag, all, weight, kept)
    && (Directed(dag, Good(all, dag.IsParallel), dag.LoopCarriedBetween) ==>
          DiscardsLeast(dag, all, weight, dag.IsParallel, dag.LoopCarriedBetween, kept))
  }

  /** Pivoting around a chosen stage and assembling the parts gives a pipeline without backward dependences. */
  lemma PipelineIsSound(dag: Dag, all: seq<Scc>, weight: map<Scc, int>, kept: seq<Scc>, rest: seq<Scc>, before: seq<Scc>, after: seq<Scc>, factor: int)
    requires StrictOrder(dag) && WeightsFit(weight, Good(all, dag.IsParallel)) && kept != [] && Chosen(dag, all, weight, kept)
    requires forall x :: x in rest <==> x in all && x !in kept
    requires Restricts(kept, all) && Restricts(rest, all)
    requires Pivoted(dag, rest, kept, before, after)
    ensures var stages := Assemble(before, kept, after, factor);
            Partition(all, stages) && Listed(all, stages) && Forward(dag, stages) && OneParallelStage(dag, all, weight, stages)
  {
    KeptIsIterationLocal(dag, all, kept);
    forall u, v | u in all && v in all && dag.Before(u, v) ensures StageIndex(before, kept, u) <= StageIndex(before, kept, v) {
      PivotIsForward(dag, all, kept, before, after, u, v);
    }
    assert ThreeWay(all, before, kept, after);
    AssembledPartition(all, before, kept, after, factor);
    RestrictsTwice(before, rest, all);
    RestrictsTwice(after, rest, all);
    AssembledListed(all, before, kept, after, factor);
    AssembledForward(dag, all, before, kept, after, factor);
    if NoCarriedPair(dag, all) {
      ChosenIsCostliest(dag, all, weight, kept);
    }
    AssembledParallel(dag, all, weight, before, kept, after, factor);
  }

  // ----- when the parallel stage is a best one -----

  lemma CarriedPairOf(dag: Dag, all: seq<Scc>, s: Scc, t: Scc) returns (e: DagEdge)
    requires s in Good(all, dag.IsParallel) && t in Good(all, dag.IsParallel) && dag.LoopCarriedBetween(s, t)
    ensures Carried(dag, all, e)
  {
    e :| e in dag.edges && e.loopCarried && ((e.dst == s && e.src == t) || (e.src == s && e.dst == t));
  }

  lemma CarriedIsNotDirected(dag: Dag, all: seq<Scc>, e: DagEdge)
    requires StrictOrder(dag) && Carried(dag, all, e)
    ensures !Directed(dag, Good(all, dag.IsParallel), dag.LoopCarriedBetween)
  {
    assert dag.LoopCarriedBetween(e.dst, e.src);
    assert !dag.Before(e.dst, e.src) by {
      assert dag.Before(e.src, e.dst);
    }
  }

  /** The symmetric test is directed only if it never holds. */
  lemma DirectedIffNoCarried(dag: Dag, all: seq<Scc>)
    requires StrictOrder(dag)
    ensures Directed(dag, Good(all, dag.IsParallel), dag.LoopCarriedBetween) <==> NoCarriedPair(dag, all)
  {
    var good := Good(all, dag.IsParallel);
    if e :| Carried(dag, all, e) {
      CarriedIsNotDirected(dag, all, e);
    } else if !Directed(dag, good, dag.LoopCarriedBetween) {
      var s, t :| s in good && t in good && dag.LoopCarriedBetween(s, t);
      var e := CarriedPairOf(dag, all, s, t);
    }
  }

  lemma OnlyThroughBad(dag: Dag, all: seq<Scc>, x: Scc, y: Scc)
    requires NoCarriedPair(dag, all) && Incompatible(dag, all, dag.IsParallel, dag.LoopCarriedBetween, x, y)
    ensures JoinedThroughBad(dag, Bad(all, dag.IsParallel), x, y)
  {
    var good := Good(all, dag.IsParallel);
    if JoinedThroughIncompatible(dag, good, dag.LoopCarriedBetween, x, y) {
      var s, t :| s in good && t in good && dag.LoopCarriedBetween(s, t);
      var e := CarriedPairOf(dag, all, s, t);
    }
  }

  /** Without carried pairs, what an admissible stage leaves out hits every non-mergeable pair. */
  lemma AdmissibleSeparates(dag: Dag, all: seq<Scc>, kept: seq<Scc>)
    requires NoCarriedPair(dag, all) && Admissible(dag, all, kept)
    ensures Separates(NonMergeablePairs(dag, Good(all, dag.IsParallel), Bad(all, dag.IsParallel), dag.LoopCarriedBetween),
                      Good(all, dag.IsParallel) - Elems(kept))
  {
    forall x, y | Incompatible(dag, all, dag.IsParallel, dag.LoopCarriedBetween, x, y) ensures x !in kept || y !in kept {
      OnlyThroughBad(dag, all, x, y);
    }
  }

  lemma ChosenIsCostliest(dag: Dag, all: seq<Scc>, weight: map<Scc, int>, kept: seq<Scc>)
    requires StrictOrder(dag) && NoCarriedPair(dag, all) && Chosen(dag, all, weight, kept)
    ensures Costliest(dag, all, weight, kept)
  {
    var good := Good(all, dag.IsParallel);
    DirectedIffNoCarried(dag, all);
    KeptIsIterationLocal(dag, all, kept);
    forall other | Admissible(dag, all, other) ensures Sum(Elems(other), Cost(weight)) <= Sum(Elems(kept), Cost(weight)) {
      AdmissibleSeparates(dag, all, other);
      assert Sum(good - Elems(kept), Cost(weight)) <= Sum(good - Elems(other), Cost(weight));
      SplitCost(dag, all, weight, kept);
      SplitCost(dag, all, weight, other);
    }
  }

  lemma SplitCost(dag: Dag, all: seq<Scc>, weight: map<Scc, int>, kept: seq<Scc>)
    requires forall x | x in kept :: x in Good(all, dag.IsParallel)
    ensures Sum(Good(all, dag.IsParallel), Cost(weight)) == Sum(Elems(kept), Cost(weight)) + Sum(Good(all, dag.IsParallel) - Elems(kept), Cost(weight))
  {
    var good := Good(all, dag.IsParallel);
    SumDisjoint(Elems(kept), good - Elems(kept), Cost(weight));
    assert forall x :: x in Elems(kept) + (good - Elems(kept)) <==> x in good;
    assert Elems(kept) + (good - Elems(kept)) == good;
  }

  /** A single parallel SCC is always admissible. */
  lemma SingleIsAdmissible(dag: Dag, all: seq<Scc>, weight: map<Scc, int>, x: Scc)
    requires StrictOrder(dag) && x in all && !CarriesInside(dag, x)
    ensures Admissible(dag, all, [x]) && Sum(Elems([x]), Cost(weight)) == CostOf(weight, x)
  {
    assert Elems([x]) == {x};
    SumRemove({x}, x, Cost(weight));
    forall e | e in dag.edges ensures !(dag.AtOrBefore(x, e.src) && dag.AtOrBefore(e.dst, x)) {
      assert dag.Before(e.src, e.dst);
    }
  }

  /** If nothing is a best choice, there is no parallel SCC. */
  lemma NothingIsCostliest(dag: Dag, all: seq<Scc>, weight: map<Scc, int>)
    requires StrictOrder(dag) && WeightsFit(weight, Good(all, dag.IsParallel)) && Costliest(dag, all, weight, [])
    ensures forall x | x in all :: CarriesInside(dag, x)
  {
    forall x | x in all ensures CarriesInside(dag, x) {
      if !CarriesInside(dag, x) {
        SingleIsAdmissible(dag, all, weight, x);
      }
    }
  }

  /** A profile in which one end of a carried pair outweighs everything else together. */
  ghost function HeavyEnd(dag: Dag, all: seq<Scc>, e: DagEdge): map<Scc, int>
  {
    map[e.src := |Good(all, dag.IsParallel)|]
  }

  lemma HeavyEndCosts(dag: Dag, all: seq<Scc>, e: DagEdge)
    requires Carried(dag, all, e)
    ensures var good, c := Good(all, dag.IsParallel), Cost(HeavyEnd(dag, all, e));
            Sum(good - {e.src}, c) == |good| - 1 && Sum(good, c) == 101 * |good| && c(e.src) == 1 + 100 * |good|
  {
    var good, c := Good(all, dag.IsParallel), Cost(HeavyEnd(dag, all, e));
    SumOnes(good - {e.src}, c);
    SumRemove(good, e.src, c);
  }

  lemma CarriedEndIsAlone(dag: Dag, all: seq<Scc>, e: DagEdge)
    requires dag.Valid() && Carried(dag, all, e)
    ensures Incompatible(dag, all, dag.IsParallel, dag.LoopCarriedBetween, e.src, e.src)
  {
    EdgeOrdered(dag, e);
    SelfIncompatibleIff(dag, all, e.src);
  }

  /** With a carried pair there is a profile for which no stage that the selection can choose is a best one. */
  lemma CarriedIsNeverBest(dag: Dag, all: seq<Scc>, e: DagEdge, kept: seq<Scc>)
    requires dag.Valid() && Carried(dag, all, e)
    requires StageOk(dag, all, dag.IsParallel, dag.LoopCarriedBetween, kept)
    ensures !Costliest(dag, all, HeavyEnd(dag, all, e), kept)
  {
    ValidIsStrictOrder(dag);
    CarriedEndIsAlone(dag, all, e);
    CheaperThanEnd(dag, all, e, kept);
    SingleIsAdmissible(dag, all, HeavyEnd(dag, all, e), e.src);
  }

  lemma CheaperThanEnd(dag: Dag, all: seq<Scc>, e: DagEdge, kept: seq<Scc>)
    requires Carried(dag, all, e) && e.src !in kept && forall x | x in kept :: x in Good(all, dag.IsParallel)
    ensures Sum(Elems(kept), Cost(HeavyEnd(dag, all, e))) < CostOf(HeavyEnd(dag, all, e), e.src)
  {
    HeavyEndCosts(dag, all, e);
    assert forall x | x in Elems(kept) :: x in Good(all, dag.IsParallel) - {e.src};
    SumSubset(Elems(kept), Good(all, dag.IsParallel) - {e.src}, Cost(HeavyEnd(dag, all, e)));
  }

  /** The kept stage is a best one, whatever the profile, exactly when no loop-carried dependence joins two
      parallel SCCs. The bound is that of 32-bit SCC indices. */
  lemma BestForEveryProfileIff(dag: Dag, all: seq<Scc>)
    requires dag.Valid() && |Good(all, dag.IsParallel)| < UNSIGNED
    ensures NoCarriedPair(dag, all) <==>
            forall weight, kept | WeightsFit(weight, Good(all, dag.IsParallel)) && Chosen(dag, all, weight, kept) :: Costliest(dag, all, weight, kept)
    ensures !NoCarriedPair(dag, all) ==>
            exists weight :: WeightsFit(weight, Good(all, dag.IsParallel))
              && forall kept | StageOk(dag, all, dag.IsParallel, dag.LoopCarriedBetween, kept) :: !Costliest(dag, all, weight, kept)
  {
    ValidIsStrictOrder(dag);
    if NoCarriedPair(dag, all) {
      forall weight, kept | WeightsFit(weight, Good(all, dag.IsParallel)) && Chosen(dag, all, weight, kept) ensures Costliest(dag, all, weight, kept) {
        ChosenIsCostliest(dag, all, weight, kept);
      }
    } else {
      var e :| Carried(dag, all, e);
      var weight := HeavyEnd(dag, all, e);
      EmptyIsChosen(dag, all, e);
      forall kept | StageOk(dag, all, dag.IsParallel, dag.LoopCarriedBetween, kept) ensures !Costliest(dag, all, weight, kept) {
        CarriedIsNeverBest(dag, all, e, kept);
      }
      assert WeightsFit(weight, Good(all, dag.IsParallel)) && Chosen(dag, all, weight, []) && !Costliest(dag, all, weight, []);
    }
  }

  lemma EmptyIsChosen(dag: Dag, all: seq<Scc>, e: DagEdge)
    requires dag.Valid() && Carried(dag, all, e) && |Good(all, dag.IsParallel)| < UNSIGNED
    ensures WeightsFit(HeavyEnd(dag, all, e), Good(all, dag.IsParallel)) && Chosen(dag, all, HeavyEnd(dag, all, e), [])
  {
    ValidIsStrictOrder(dag);
    DirectedIffNoCarried(dag, all);
    CarriedEndIsAlone(dag, all, e);
    EmptyKeepsMost(dag, all, e);
    HeavyEndCosts(dag, all, e);
  }

  lemma EmptyKeepsMost(dag: Dag, all: seq<Scc>, e: DagEdge)
    requires Carried(dag, all, e) && Incompatible(dag, all, dag.IsParallel, dag.LoopCarriedBetween, e.src, e.src)
    ensures KeepsMost(dag, all, HeavyEnd(dag, all, e), [])
  {
    var good, weight := Good(all, dag.IsParallel), HeavyEnd(dag, all, e);
    var nm := NonMergeablePairs(dag, good, Bad(all, dag.IsParallel), dag.LoopCarriedBetween);
    assert nm(e.src, e.src);
    assert good - Elems([]) == good;
    forall X: set<Scc> | Separates(nm, X) ensures Sum(good, Cost(weight)) <= 2 * Sum(X, Cost(weight)) {
      EndIsHalf(dag, all, e, X);
    }
  }

  lemma EndIsHalf(dag: Dag, all: seq<Scc>, e: DagEdge, X: set<Scc>)
    requires Carried(dag, all, e) && e.src in X
    ensures Sum(Good(all, dag.IsParallel), Cost(HeavyEnd(dag, all, e))) <= 2 * Sum(X, Cost(HeavyEnd(dag, all, e)))
  {
    HeavyEndCosts(dag, all, e);
    SumRemove(X, e.src, Cost(HeavyEnd(dag, all, e)));
    SumSubset({}, X - {e.src}, Cost(HeavyEnd(dag, all, e)));
  }

  function ThreadsLeft(budget: int, before: seq<Scc>, after: seq<Scc>): int
  {
    var n := if before != [] then Decrement(budget) else budget;
    if after != [] then Decrement(n) else n
  }

  ghost predicate NonNegativeFactors(stages: seq<Stage>)
  {
    forall i | 0 <= i < |stages| :: 0 <= stages[i].factor < UNSIGNED
  }

  /** Every parallel stage has a thread. */
  ghost predicate HasWorkers(stages: seq<Stage>)
  {
    forall i | 0 <= i < |stages| && stages[i].kind == Parallel :: stages[i].factor > 0
  }

  /** All threads are handed out exactly when the counter does not run below zero; a thread is left for the
      parallel stage, too, exactly when there are as many threads as stages. */
  lemma ThreadsAddUp(budget: int, before: seq<Scc>, kept: seq<Scc>, after: seq<Scc>)
    requires 0 < budget < UNSIGNED
    ensures var stages := Assemble(before, kept, after, ThreadsLeft(budget, before, after));
            && NonNegativeFactors(stages)
            && Threads(stages) == (if budget >= |stages| - 1 then budget else budget + UNSIGNED)
            && (Threads(stages) == budget && HasWorkers(stages) <==> budget >= |stages|)
            && 1 <= |stages| <= 3
  {
    var f := ThreadsLeft(budget, before, after);
    var stages := Assemble(before, kept, after, f);
    var b := if before != [] then [Stage(Sequential, before, 1)] else [];
    var k := [Stage(Parallel, kept, f)];
    assert stages[|b|] == Stage(Parallel, kept, f);
    ThreadsAppend([], Stage(Sequential, before, 1));
    ThreadsAppend(b, Stage(Parallel, kept, f));
    ThreadsAppend(b + k, Stage(Sequential, after, 1));
    assert [] + [Stage(Sequential, before, 1)] == [Stage(Sequential, before, 1)];
    assert after == [] ==> stages == b + k;
  }

  lemma ThreadsAppend(stages: seq<Stage>, s: Stage)
    ensures Threads(stages + [s]) == Threads(stages) + s.factor
  {
    assert (stages + [s])[..|stages|] == stages;
  }

  /** Lists the non-empty stages while counting the threads left for the parallel one. */
  method AssembleStages(before: seq<Scc>, kept: seq<Scc>, after: seq<Scc>, threadBudget: int) returns (stages: seq<Stage>)
    ensures stages == Assemble(before, kept, after, ThreadsLeft(threadBudget, before, after))
  {
    stages := [];
    var threadAvail := threadBudget;
    if before != [] {
      stages := stages + [Stage(Sequential, before, 1)];
      threadAvail := Decrement(threadAvail);
    }
    if after != [] {
      threadAvail := Decrement(threadAvail);
    }
    stages := stages + [Stage(Parallel, kept, threadAvail)];
    if after != [] {
      stages := stages + [Stage(Sequential, after, 1)];
    }
  }

  ghost predicate SomeParallel(dag: Dag, all: seq<Scc>)
  {
    exists x :: x in all && !CarriesInside(dag, x)
  }

  /** The parallel SCCs that stay together, and all others. */
  method FindMaxParallelStage(dag: Dag, all: seq<Scc>, weight: map<Scc, int>) returns (found: bool, kept: seq<Scc>, rest: seq<Scc>)
    requires dag.Valid() && forall x | x in all :: x in dag.nodes
    requires WeightsFit(weight, Good(all, dag.IsParallel))
    ensures found <==> kept != []
    ensures StrictOrder(dag) && Chosen(dag, all, weight, kept) && Admissible(dag, all, kept)
    ensures Good(all, dag.IsParallel) == ParallelSccs(dag, all)
    ensures found ==> SomeParallel(dag, all)
    ensures NoCarriedPair(dag, all) ==> (found <==> SomeParallel(dag, all))
    ensures Restricts(kept, all) && Restricts(rest, all)
    ensures forall x :: x in rest <==> found && x in all && x !in kept
  {
    ValidIsStrictOrder(dag);
    found, kept, rest := FindMaxGoodStage(dag, all, weight, dag.IsParallel, dag.LoopCarriedBetween);
    KeptIsIterationLocal(dag, all, kept);
    GoodAreParallel(dag, all);
    FoundIff(dag, all, weight, kept);
  }

  /** A forward partition around one parallel stage. The threads add up exactly when the budget covers the sequential
      stages, and leave the parallel stage a worker exactly when it covers all stages. */
  ghost predicate Outcome(dag: Dag, all: seq<Scc>, weight: map<Scc, int>, threadBudget: int, stages: seq<Stage>)
  {
    && Partition(all, stages) && Listed(all, stages) && Forward(dag, stages) && OneParallelStage(dag, all, weight, stages)
    && 1 <= |stages| <= 3 && NonNegativeFactors(stages)
    && (Threads(stages) == threadBudget <==> threadBudget >= |stages| - 1)
    && (Threads(stages) == threadBudget && HasWorkers(stages) <==> threadBudget >= |stages|)
  }

  /** Pivots the other SCCs around the chosen stage. */
  method AroundStage(dag: Dag, ghost all: seq<Scc>, ghost weight: map<Scc, int>, kept: seq<Scc>, rest: seq<Scc>, threadBudget: int)
    returns (stages: seq<Stage>)
    requires StrictOrder(dag) && WeightsFit(weight, Good(all, dag.IsParallel)) && kept != [] && Chosen(dag, all, weight, kept)
    requires forall x :: x in rest <==> x in all && x !in kept
    requires Restricts(kept, all) && Restricts(rest, all) && 0 < threadBudget < UNSIGNED
    ensures Outcome(dag, all, weight, threadBudget, stages)
  {
    var before, after := PivotTwoWay(dag, rest, kept);
    PipelineIsSound(dag, all, weight, kept, rest, before, after, ThreadsLeft(threadBudget, before, after));
    ThreadsAddUp(threadBudget, before, kept, after);
    stages := AssembleStages(before, kept, after, threadBudget);
  }

  /** {before} parallel {after}. The thread budget minus one per sequential stage goes to the parallel one,
      in 32-bit arithmetic. */
  method DoallAndPipeline(dag: Dag, all: seq<Scc>, weight: map<Scc, int>, threadBudget: int, includeParallelStages: bool)
    returns (ok: bool, stages: seq<Stage>)
    requires dag.Valid() && forall x | x in all :: x in dag.nodes
    requires WeightsFit(weight, Good(all, dag.IsParallel))
    requires 0 <= threadBudget < UNSIGNED && (all != [] ==> threadBudget > 0)
    ensures !ok ==> stages == [] && (all == [] || !includeParallelStages || KeepsMost(dag, all, weight, []))
    ensures ok ==> all != [] && includeParallelStages && SomeParallel(dag, all)
    ensures NoCarriedPair(dag, all) && includeParallelStages ==> (ok <==> SomeParallel(dag, all))
    ensures ok ==> Outcome(dag, all, weight, threadBudget, stages)
    ensures Good(all, dag.IsParallel) == ParallelSccs(dag, all)
    ensures ok && threadBudget >= 2 ==> Threads(stages) == threadBudget
    ensures ok && threadBudget >= 3 ==> HasWorkers(stages)
  {
    stages := [];
    GoodAreParallel(dag, all);
    if all == [] {
      return false, [];
    }
    if includeParallelStages {
      var found, kept, rest := FindMaxParallelStage(dag, all, weight);
      if found {
        stages := AroundStage(dag, all, weight, kept, rest, threadBudget);
        return true, stages;
      }
    }
    return false, [];
  }

  lemma KeptIsParallel(dag: Dag, all: seq<Scc>, kept: seq<Scc>, x: Scc)
    requires StageOk(dag, all, dag.IsParallel, dag.LoopCarriedBetween, kept) && x in kept
    ensures x in all && !CarriesInside(dag, x)
  {
    assert x in Good(all, dag.IsParallel);
    ParallelIffNotCarried(dag, x);
  }

  /** Without carried pairs, something is kept exactly when some SCC is parallel. */
  lemma FoundIff(dag: Dag, all: seq<Scc>, weight: map<Scc, int>, kept: seq<Scc>)
    requires StrictOrder(dag) && WeightsFit(weight, Good(all, dag.IsParallel)) && Chosen(dag, all, weight, kept)
    ensures kept != [] ==> SomeParallel(dag, all)
    ensures NoCarriedPair(dag, all) ==> (kept != [] <==> SomeParallel(dag, all))
  {
    if kept != [] {
      KeptIsParallel(dag, all, kept, kept[0]);
    } else if NoCarriedPair(dag, all) {
      ChosenIsCostliest(dag, all, weight, kept);
      NothingIsCostliest(dag, all, weight);
    }
  }

  /** A stage is found whenever some removal costing less than half of the parallel SCCs leaves no
      non-mergeable pair; with no such pair at all, every parallel SCC is kept. */
  lemma KeepsMostMeans(dag: Dag, all: seq<Scc>, weight: map<Scc, int>, kept: seq<Scc>, X: set<Scc>)
    requires KeepsMost(dag, all, weight, kept) && WeightsFit(weight, Good(all, dag.IsParallel))
    requires Separates(NonMergeablePairs(dag, Good(all, dag.IsParallel), Bad(all, dag.IsParallel), dag.LoopCarriedBetween), X)
    ensures 2 * Sum(X, Cost(weight)) < Sum(Good(all, dag.IsParallel), Cost(weight)) ==> kept != []
    ensures X == {} ==> forall x | x in ParallelSccs(dag, all) :: x in kept
  {
    var good := Good(all, dag.IsParallel);
    var discarded := good - Elems(kept);
    assert Sum(discarded, Cost(weight)) <= 2 * Sum(X, Cost(weight));
    assert kept == [] ==> discarded == good;
    if X == {} {
      forall x | x in good ensures x in kept {
        if x in discarded {
          SumSubset({x}, discarded, Cost(weight));
          SumRemove({x}, x, Cost(weight));
        }
      }
    }
  }

  // ----- what the symmetric incompatibility test costs -----

  /** An SCC is non-mergeable with itself exactly when it lies between the ends of a loop-carried
      dependence that joins two parallel SCCs. Such an SCC is never kept. */
  lemma SelfIncompatibleIff(dag: Dag, all: seq<Scc>, g: Scc)
    requires dag.Valid() && g in Good(all, dag.IsParallel)
    ensures Incompatible(dag, all, dag.IsParallel, dag.LoopCarriedBetween, g, g)
       <==> exists e :: e in dag.edges && e.loopCarried
                     && e.src in Good(all, dag.IsParallel) && e.dst in Good(all, dag.IsParallel)
                     && dag.AtOrBefore(e.src, g) && dag.AtOrBefore(g, e.dst)
  {
    ValidIsStrictOrder(dag);
    var good := Good(all, dag.IsParallel);
    if e :| e in dag.edges && e.loopCarried && e.src in good && e.dst in good && dag.AtOrBefore(e.src, g) && dag.AtOrBefore(g, e.dst) {
      assert dag.LoopCarriedBetween(e.dst, e.src);
      assert JoinedThroughIncompatible(dag, good, dag.LoopCarriedBetween, g, g);
    }
    if Incompatible(dag, all, dag.IsParallel, dag.LoopCarriedBetween, g, g) {
      assert JoinedThroughIncompatible(dag, good, dag.LoopCarriedBetween, g, g);
      var s, t :| s in good && t in good && dag.LoopCarriedBetween(s, t) && dag.AtOrBefore(g, s) && dag.AtOrBefore(t, g);
      var e :| e in dag.edges && e.loopCarried && ((e.dst == s && e.src == t) || (e.src == s && e.dst == t));
      assert dag.Before(e.src, e.dst);
    }
  }

  /** Two parallel SCCs joined by one loop-carried dependence. */
  const CARRIED_PAIR := Dag({0, 1}, [DagEdge(0, 1, true)], {(0, 1)}, map[], map[])

  lemma CarriedPairIsValid()
    ensures CARRIED_PAIR.Valid()
  {
    var dag := CARRIED_PAIR;
    assert DagEdge(0, 1, true) in dag.edges;
    assert dag.PathOf(0, 1, 0);
    forall a: Scc, b: Scc, n: nat | dag.PathOf(a, b, n) ensures (a, b) in dag.order {
      PathsInOrder(dag, a, b, n);
    }
  }

  /** So the kept set is not always a best one: no SCC of the carried pair is ever kept, although
      keeping the first alone breaks no rule. */
  lemma CarriedPairKeepsNothing(kept: seq<Scc>)
    requires StageOk(CARRIED_PAIR, [0, 1], CARRIED_PAIR.IsParallel, CARRIED_PAIR.LoopCarriedBetween, kept)
    ensures kept == []
    ensures IterationLocal(CARRIED_PAIR, [0, 1], [0]) && Convex(CARRIED_PAIR, [0, 1], [0])
  {
    var dag := CARRIED_PAIR;
    CarriedPairIsValid();
    ValidIsStrictOrder(dag);
    assert DagEdge(0, 1, true) in dag.edges;
    if kept != [] {
      assert kept[0] in kept;
      SelfIncompatibleIff(dag, [0, 1], kept[0]);
    }
  }

  // ----- a pipeline that starves its parallel stage -----

  /** A parallel SCC between two sequential ones. */
  const SANDWICH := Dag({0, 1, 2}, [DagEdge(0, 1, false), DagEdge(1, 2, false)], {(0, 1), (1, 2), (0, 2)},
                        map[0 := {0}, 2 := {2}], map[0 := [Dependence(0, 0, true)], 2 := [Dependence(2, 2, true)]])

  lemma SandwichIsValid()
    ensures SANDWICH.Valid()
  {
    var dag := SANDWICH;
    assert DagEdge(0, 1, false) in dag.edges && DagEdge(1, 2, false) in dag.edges;
    assert dag.PathOf(0, 1, 0) && dag.PathOf(1, 2, 0);
    assert dag.HasEdge(0, 1) && dag.PathOf(0, 2, 1);
    forall a: Scc, b: Scc, n: nat | dag.PathOf(a, b, n) ensures (a, b) in dag.order {
      PathsInOrder(dag, a, b, n);
    }
  }

  /** Nothing is loop-carried between parallel SCCs, so a pipeline is built. */
  lemma SandwichIsBuilt()
    ensures NoCarriedPair(SANDWICH, [0, 1, 2]) && SomeParallel(SANDWICH, [0, 1, 2])
  {
    SandwichIsMixed(1);
    assert 1 in [0, 1, 2];
  }

  lemma SandwichIsMixed(x: Scc)
    requires x in [0, 1, 2]
    ensures SANDWICH.IsParallel(x) <==> x == 1
  {
    assert Dependence(0, 0, true) in SANDWICH.dependences[0] && Dependence(2, 2, true) in SANDWICH.dependences[2];
  }

  /** Whatever is built around the parallel SCC has three stages, so one thread makes the counter wrap and two
      threads leave the parallel stage without any. */
  lemma SandwichStarves(weight: map<Scc, int>, budget: int, stages: seq<Stage>)
    requires Outcome(SANDWICH, [0, 1, 2], weight, budget, stages)
    ensures |stages| == 3
    ensures budget == 1 ==> Threads(stages) != budget
    ensures budget == 2 ==> Threads(stages) == budget && !HasWorkers(stages)
  {
    var dag, all := SANDWICH, [0, 1, 2];
    var p :| 0 <= p < |stages| && ParallelAt(dag, all, weight, stages, p);
    var x := stages[p].sccs[0];
    assert x in stages[p].sccs;
    forall y | y in all ensures dag.IsParallel(y) <==> y == 1 {
      SandwichIsMixed(y);
    }
    assert x == 1;
    assert 0 in all && 2 in all;
    var i, j :| 0 <= i < |stages| && 0 <= j < |stages| && 0 in stages[i].sccs && 2 in stages[j].sccs;
    assert DagEdge(0, 1, false) in dag.edges && DagEdge(1, 2, false) in dag.edges;
    assert i <= p <= j;
    assert i != p && j != p;
  }
}
