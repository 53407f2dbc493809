/** Choosing the parallel stage of a pipeline by a minimum cut of the non-mergeability network. */
module ParallelStage {
  import opened FiniteSums
  import opened FlowNetwork
  import opened EdmondsKarp
  import opened SccDag
  import opened StageNetwork

  // ----- what the minimum cut keeps -----

  /** R is the residual-reachable side of a maximum flow in the finished network. */
  ghost predicate CutSide(cap: EdgeWeights, flow: EdgeWeights, total: nat, R: set<Vertex>,
                          good: set<Scc>, weight: map<Scc, int>, nm: Relation)
  {
    && Wired(cap, good, weight, nm)
    && WeightsFit(weight, good)
    && Feasible(cap, flow, total)
    && Closed(cap, flow, R)
    && IsCut(R)
  }

  /** The cut separates the two vertices of x the way it does for an SCC that stays. */
  ghost predicate Split(R: set<Vertex>, x: Scc)
  {
    Left(x) in R && Right(x) !in R
  }

  /** No infinite edge leaves the cut. */
  lemma PairStaysInside(cap: EdgeWeights, flow: EdgeWeights, total: nat, R: set<Vertex>,
                        good: set<Scc>, weight: map<Scc, int>, nm: Relation, x: Scc, y: Scc)
    requires CutSide(cap, flow, total, R, good, weight, nm) && nm(x, y) && Left(x) in R
    ensures Right(y) in R
  {
    assert PairWired(cap, x, y);
    assert Residual(cap, flow, Left(x), Right(y)) == INFINITE;
  }

  /** The neighbours of the left vertex of a split SCC lie inside the cut with it. */
  lemma SplitKeepsLeft(cap: EdgeWeights, flow: EdgeWeights, total: nat, R: set<Vertex>,
                       good: set<Scc>, weight: map<Scc, int>, nm: Relation, x: Scc, w: Vertex)
    requires CutSide(cap, flow, total, R, good, weight, nm) && x in good && Split(R, x)
    requires (Left(x), w) in cap || (w, Left(x)) in cap
    ensures w in R
  {
    assert TerminalsWired(cap, x, CostOf(weight, x));
    if (Left(x), w) in cap {
      EdgeShape(cap, good, weight, nm, Left(x), w);
      var a, y :| nm(a, y) && Left(x) == Left(a) && w == Right(y);
      PairStaysInside(cap, flow, total, R, good, weight, nm, x, y);
    } else {
      EdgeShape(cap, good, weight, nm, w, Left(x));
    }
  }

  /** The neighbours of the right vertex of a split SCC lie outside the cut with it. */
  lemma SplitKeepsRight(cap: EdgeWeights, flow: EdgeWeights, total: nat, R: set<Vertex>,
                        good: set<Scc>, weight: map<Scc, int>, nm: Relation, x: Scc, w: Vertex)
    requires CutSide(cap, flow, total, R, good, weight, nm) && x in good && Split(R, x)
    requires (Right(x), w) in cap || (w, Right(x)) in cap
    ensures w !in R
  {
    assert TerminalsWired(cap, x, CostOf(weight, x));
    if (Right(x), w) in cap {
      EdgeShape(cap, good, weight, nm, Right(x), w);
    } else {
      EdgeShape(cap, good, weight, nm, w, Right(x));
      var z, b :| nm(z, b) && w == Left(z) && Right(x) == Right(b);
      if w in R {
        PairStaysInside(cap, flow, total, R, good, weight, nm, z, x);
      }
    }
  }

  /** An SCC touches no cut edge exactly when the cut splits it. */
  lemma UntouchedIffSplit(cap: EdgeWeights, flow: EdgeWeights, total: nat, R: set<Vertex>,
                          good: set<Scc>, weight: map<Scc, int>, nm: Relation, x: Scc)
    requires CutSide(cap, flow, total, R, good, weight, nm) && x in good
    ensures !OnBoundary(cap, R, Left(x)) && !OnBoundary(cap, R, Right(x)) <==> Split(R, x)
  {
    assert TerminalsWired(cap, x, CostOf(weight, x));
    if Split(R, x) {
      forall w: Vertex | (Left(x), w) in cap || (w, Left(x)) in cap ensures w in R {
        SplitKeepsLeft(cap, flow, total, R, good, weight, nm, x, w);
      }
      forall w: Vertex | (Right(x), w) in cap || (w, Right(x)) in cap ensures w !in R {
        SplitKeepsRight(cap, flow, total, R, good, weight, nm, x, w);
      }
    }
  }

  /** Unless the left vertex of g is inside the cut, flow passes from it to some partner of g. */
  lemma LeftFeedsPartner(cap: EdgeWeights, flow: EdgeWeights, total: nat, R: set<Vertex>,
                         good: set<Scc>, weight: map<Scc, int>, nm: Relation, g: Scc) returns (z: Scc)
    requires CutSide(cap, flow, total, R, good, weight, nm) && g in good && Left(g) !in R
    ensures nm(g, z) && Right(z) !in R
  {
    WiredIsOneWay(cap, good, weight, nm);
    assert TerminalsWired(cap, g, CostOf(weight, g));
    CostBound(weight, good, g);
    ClosedSetBoundary(cap, flow, total, R, (SOURCE, Left(g)));
    var o := FlowGoesOn(cap, flow, total, (SOURCE, Left(g)));
    EdgeShape(cap, good, weight, nm, o.0, o.1);
    var x, y :| nm(x, y) && o.0 == Left(x) && o.1 == Right(y);
    z := y;
    ClosedSetBoundary(cap, flow, total, R, o);
  }

  /** If the right vertex of g is inside the cut, flow reaches it from some partner inside the cut. */
  lemma RightFedByPartner(cap: EdgeWeights, flow: EdgeWeights, total: nat, R: set<Vertex>,
                          good: set<Scc>, weight: map<Scc, int>, nm: Relation, g: Scc) returns (z: Scc)
    requires CutSide(cap, flow, total, R, good, weight, nm) && g in good && Right(g) in R
    ensures nm(z, g) && Left(z) in R
  {
    WiredIsOneWay(cap, good, weight, nm);
    assert TerminalsWired(cap, g, CostOf(weight, g));
    CostBound(weight, good, g);
    ClosedSetBoundary(cap, flow, total, R, (Right(g), SINK));
    var i := FlowComesFrom(cap, flow, total, (Right(g), SINK));
    EdgeShape(cap, good, weight, nm, i.0, i.1);
    var x, y :| nm(x, y) && i.0 == Left(x) && i.1 == Right(y);
    z := x;
    ClosedSetBoundary(cap, flow, total, R, i);
  }

  /** The split SCCs are convex: whatever lies between two of them is good and split too. */
  lemma SplitIsConvex(dag: Dag, cap: EdgeWeights, flow: EdgeWeights, total: nat, R: set<Vertex>,
                      good: set<Scc>, bad: set<Scc>, incompat: Relation, weight: map<Scc, int>, x: Scc, g: Scc, y: Scc)
    requires StrictOrder(dag) && CutSide(cap, flow, total, R, good, weight, NonMergeablePairs(dag, good, bad, incompat))
    requires x in good && y in good && g in good + bad && Split(R, x) && Split(R, y)
    requires dag.Before(x, g) && dag.Before(g, y)
    ensures g in good && Split(R, g)
  {
    var nm := NonMergeablePairs(dag, good, bad, incompat);
    if g !in good {
      assert JoinedThroughBad(dag, bad, x, y);
      assert nm(x, y);
      PairStaysInside(cap, flow, total, R, good, weight, nm, x, y);
    } else if Left(g) !in R {
      var z := LeftFeedsPartner(cap, flow, total, R, good, weight, nm, g);
      NonMergeableIsClosed(dag, good, bad, incompat, x, g, z, z);
      PairStaysInside(cap, flow, total, R, good, weight, nm, x, z);
    } else if Right(g) in R {
      var z := RightFedByPartner(cap, flow, total, R, good, weight, nm, g);
      NonMergeableIsClosed(dag, good, bad, incompat, z, z, g, y);
      PairStaysInside(cap, flow, total, R, good, weight, nm, z, y);
    }
  }

  // ----- how much the cut discards -----

  ghost function CutEdgeOf(R: set<Vertex>): Scc -> Edge
  {
    (x: Scc) => if Left(x) !in R then (SOURCE, Left(x)) else (Right(x), SINK)
  }

  /** The discarded SCCs cost at most the cut, one cut edge each. */
  lemma DiscardedBelowCut(cap: EdgeWeights, flow: EdgeWeights, total: nat, R: set<Vertex>,
                          good: set<Scc>, weight: map<Scc, int>, nm: Relation, D: set<Scc>)
    requires CutSide(cap, flow, total, R, good, weight, nm)
    requires D <= good && forall x | x in D :: !Split(R, x)
    ensures Sum(D, Cost(weight)) <= CutCapacity(cap, R)
  {
    forall x | x in D ensures x >= 0 && CutEdgeOf(R)(x) in cap.Keys && CutTerm(cap, R)(CutEdgeOf(R)(x)) == Cost(weight)(x) {
      assert TerminalsWired(cap, x, CostOf(weight, x));
    }
    SumImage(D, cap.Keys, CutEdgeOf(R), Cost(weight), CutTerm(cap, R));
  }

  ghost predicate Fed(nm: Relation, X: set<Scc>, y: Scc)
  {
    exists x :: x !in X && nm(x, y)
  }

  /** The cut that removes X: everything reachable without passing through X. */
  ghost function RemovalCut(good: set<Scc>, nm: Relation, X: set<Scc>): set<Vertex>
  {
    {SOURCE} + (set x | x in good && x !in X :: Left(x)) + (set y | y in good && Fed(nm, X, y) :: Right(y))
  }

  /** X hits every non-mergeable pair, so the SCCs outside X can all be kept together. */
  ghost predicate Separates(nm: Relation, X: set<Scc>)
  {
    forall x, y | nm(x, y) :: x in X || y in X
  }

  lemma RemovalCutEdge(cap: EdgeWeights, good: set<Scc>, weight: map<Scc, int>, nm: Relation, X: set<Scc>, e: Edge)
    requires Wired(cap, good, weight, nm) && Separates(nm, X) && e in cap
    requires e.0 in RemovalCut(good, nm, X) && e.1 !in RemovalCut(good, nm, X)
    ensures (e.0 == SOURCE && SccOf(e.1) in X) || (e.1 == SINK && SccOf(e.0) in X)
  {
    var T := RemovalCut(good, nm, X);
    if e.0 == SOURCE {
      SourceEdgeOf(cap, good, weight, nm, e);
    } else if e.1 == SINK {
      SinkEdgeOf(cap, good, weight, nm, e);
      var y := SccOf(e.0);
      assert Fed(nm, X, y);
    } else {
      EdgeShape(cap, good, weight, nm, e.0, e.1);
    }
  }

  /** Every edge across T is a source edge to an SCC of A or a sink edge from one of B. */
  ghost predicate CrossedAtTerminals(cap: EdgeWeights, T: set<Vertex>, A: set<Scc>, B: set<Scc>)
  {
    forall e | e in cap && e.0 in T && e.1 !in T :: (e.0 == SOURCE && SccOf(e.1) in A) || (e.1 == SINK && SccOf(e.0) in B)
  }

  lemma TerminalCutCost(cap: EdgeWeights, good: set<Scc>, weight: map<Scc, int>, nm: Relation, A: set<Scc>, B: set<Scc>, T: set<Vertex>)
    requires Wired(cap, good, weight, nm) && forall x | x in weight :: weight[x] >= 0
    requires IsCut(T) && CrossedAtTerminals(cap, T, A, B)
    ensures CutCapacity(cap, T) <= Sum(A, Cost(weight)) + Sum(B, Cost(weight))
  {
    var f := CutTerm(cap, T);
    var E := set e | e in cap && e.0 == SOURCE && e.1 !in T && SccOf(e.1) in A;
    var F := set e | e in cap && e !in E && e.0 in T && e.1 == SINK && SccOf(e.0) in B;
    var C := cap.Keys - E - F;
    assert (E + F) + C == cap.Keys;
    SumDisjoint(E, F, f);
    SumDisjoint(E + F, C, f);
    SumZero(C, f);
    SourceEdgesCost(cap, good, weight, nm, E, A, f);
    SinkEdgesCost(cap, good, weight, nm, F, B, f);
  }

  lemma RemovalCutCost(cap: EdgeWeights, good: set<Scc>, weight: map<Scc, int>, nm: Relation, X: set<Scc>)
    requires Wired(cap, good, weight, nm) && WeightsFit(weight, good) && Separates(nm, X)
    ensures IsCut(RemovalCut(good, nm, X))
    ensures CutCapacity(cap, RemovalCut(good, nm, X)) <= 2 * Sum(X, Cost(weight))
  {
    var T := RemovalCut(good, nm, X);
    forall e | e in cap && e.0 in T && e.1 !in T
      ensures (e.0 == SOURCE && SccOf(e.1) in X) || (e.1 == SINK && SccOf(e.0) in X)
    {
      RemovalCutEdge(cap, good, weight, nm, X, e);
    }
    forall x | x in good ensures Left(x) != SINK && Right(x) != SINK {
      assert TerminalsWired(cap, x, CostOf(weight, x));
    }
    TerminalCutCost(cap, good, weight, nm, X, X, T);
  }

  lemma DiscardedAtMostTwice(cap: EdgeWeights, flow: EdgeWeights, total: nat, R: set<Vertex>,
                             good: set<Scc>, weight: map<Scc, int>, nm: Relation, D: set<Scc>, X: set<Scc>)
    requires CutSide(cap, flow, total, R, good, weight, nm)
    requires D <= good && forall x | x in D :: !Split(R, x)
    requires Separates(nm, X)
    ensures Sum(D, Cost(weight)) <= 2 * Sum(X, Cost(weight))
  {
    DiscardedBelowCut(cap, flow, total, R, good, weight, nm, D);
    RemovalCutCost(cap, good, weight, nm, X);
    WiredIsOneWay(cap, good, weight, nm);
    ClosedCutIsMinimum(cap, flow, total, R);
  }

  // ----- when the cut discards no more than it must -----

  ghost predicate Transitive(nm: Relation)
  {
    forall x, y, z | nm(x, y) && nm(y, z) :: nm(x, z)
  }

  /** x is non-mergeable with some successor outside X. */
  ghost predicate Feeds(nm: Relation, X: set<Scc>, x: Scc)
  {
    exists a :: a !in X && nm(x, a)
  }

  /** The cut that removes each SCC of X only once: at the source if it feeds an SCC outside X, else at the sink. */
  ghost function ExactCut(good: set<Scc>, nm: Relation, X: set<Scc>): set<Vertex>
  {
    {SOURCE} + (set x | x in good && !(x in X && Feeds(nm, X, x)) :: Left(x)) + (set y | y in good && y in X && !Feeds(nm, X, y) :: Right(y))
  }

  lemma ExactCutEdge(cap: EdgeWeights, good: set<Scc>, weight: map<Scc, int>, nm: Relation, X: set<Scc>, e: Edge)
    requires Wired(cap, good, weight, nm) && Separates(nm, X) && Transitive(nm) && e in cap
    requires e.0 in ExactCut(good, nm, X) && e.1 !in ExactCut(good, nm, X)
    ensures (e.0 == SOURCE && SccOf(e.1) in X && Feeds(nm, X, SccOf(e.1)))
         || (e.1 == SINK && SccOf(e.0) in X && !Feeds(nm, X, SccOf(e.0)))
  {
    if e.0 == SOURCE {
      SourceEdgeOf(cap, good, weight, nm, e);
    } else if e.1 == SINK {
      SinkEdgeOf(cap, good, weight, nm, e);
    } else {
      EdgeShape(cap, good, weight, nm, e.0, e.1);
      var x, y :| nm(x, y) && e.0 == Left(x) && e.1 == Right(y);
      PairStaysInExactCut(cap, good, weight, nm, X, x, y);
    }
  }

  lemma PairStaysInExactCut(cap: EdgeWeights, good: set<Scc>, weight: map<Scc, int>, nm: Relation, X: set<Scc>, x: Scc, y: Scc)
    requires Wired(cap, good, weight, nm) && Separates(nm, X) && Transitive(nm) && nm(x, y)
    requires Left(x) in ExactCut(good, nm, X)
    ensures Right(y) in ExactCut(good, nm, X)
  {
    assert PairWired(cap, x, y) && x in good && y in good;
    assert TerminalsWired(cap, x, CostOf(weight, x)) && TerminalsWired(cap, y, CostOf(weight, y));
    assert !(x in X && Feeds(nm, X, x));
    if Feeds(nm, X, y) {
      FeedsBack(nm, X, x, y);
    }
  }

  lemma FeedsBack(nm: Relation, X: set<Scc>, x: Scc, y: Scc)
    requires Transitive(nm) && nm(x, y) && Feeds(nm, X, y)
    ensures Feeds(nm, X, x)
  {
  }

  lemma ExactCutCrossed(cap: EdgeWeights, good: set<Scc>, weight: map<Scc, int>, nm: Relation, X: set<Scc>, A: set<Scc>)
    requires Wired(cap, good, weight, nm) && Separates(nm, X) && Transitive(nm)
    requires forall x :: x in A <==> x in X && Feeds(nm, X, x)
    ensures IsCut(ExactCut(good, nm, X)) && CrossedAtTerminals(cap, ExactCut(good, nm, X), A, X - A)
  {
    var T := ExactCut(good, nm, X);
    forall e | e in cap && e.0 in T && e.1 !in T
      ensures (e.0 == SOURCE && SccOf(e.1) in A) || (e.1 == SINK && SccOf(e.0) in X - A)
    {
      ExactCutEdge(cap, good, weight, nm, X, e);
    }
    forall x | x in good ensures Left(x) != SINK && Right(x) != SINK {
      assert TerminalsWired(cap, x, CostOf(weight, x));
    }
  }

  lemma ExactCutCost(cap: EdgeWeights, good: set<Scc>, weight: map<Scc, int>, nm: Relation, X: set<Scc>)
    requires Wired(cap, good, weight, nm) && WeightsFit(weight, good) && Separates(nm, X) && Transitive(nm)
    ensures IsCut(ExactCut(good, nm, X))
    ensures CutCapacity(cap, ExactCut(good, nm, X)) <= Sum(X, Cost(weight))
  {
    var T := ExactCut(good, nm, X);
    var A := set x | x in X && Feeds(nm, X, x);
    ExactCutCrossed(cap, good, weight, nm, X, A);
    TerminalCutCost(cap, good, weight, nm, A, X - A, T);
    SumDisjoint(A, X - A, Cost(weight));
    assert A + (X - A) == X;
  }

  /** For a transitive relation the discarded SCCs cost at most any set that hits every non-mergeable pair. */
  lemma DiscardedAtMostRemoved(cap: EdgeWeights, flow: EdgeWeights, total: nat, R: set<Vertex>,
                               good: set<Scc>, weight: map<Scc, int>, nm: Relation, D: set<Scc>, X: set<Scc>)
    requires CutSide(cap, flow, total, R, good, weight, nm)
    requires D <= good && forall x | x in D :: !Split(R, x)
    requires Separates(nm, X) && Transitive(nm)
    ensures Sum(D, Cost(weight)) <= Sum(X, Cost(weight))
  {
    DiscardedBelowCut(cap, flow, total, R, good, weight, nm, D);
    ExactCutCost(cap, good, weight, nm, X);
    WiredIsOneWay(cap, good, weight, nm);
    ClosedCutIsMinimum(cap, flow, total, R);
  }

  /** Good SCCs are incompatible only along the order. */
  ghost predicate Directed(dag: Dag, good: set<Scc>, incompat: Relation)
  {
    forall s, t | s in good && t in good && incompat(s, t) :: dag.Before(s, t)
  }

  lemma DirectedIsTransitive(dag: Dag, good: set<Scc>, bad: set<Scc>, incompat: Relation)
    requires StrictOrder(dag) && Directed(dag, good, incompat)
    ensures Transitive(NonMergeablePairs(dag, good, bad, incompat))
  {
    forall x, y, z | NonMergeable(dag, good, bad, incompat, x, y) && NonMergeable(dag, good, bad, incompat, y, z)
      ensures NonMergeable(dag, good, bad, incompat, x, z)
    {
      NonMergeableIsBefore(dag, good, bad, incompat, y, z);
      NonMergeableIsClosed(dag, good, bad, incompat, x, x, y, z);
    }
  }

  lemma NonMergeableIsBefore(dag: Dag, good: set<Scc>, bad: set<Scc>, incompat: Relation, x: Scc, y: Scc)
    requires StrictOrder(dag) && Directed(dag, good, incompat) && NonMergeable(dag, good, bad, incompat, x, y)
    ensures dag.Before(x, y)
  {
    if JoinedThroughBad(dag, bad, x, y) {
      var b :| b in bad && dag.Before(x, b) && dag.Before(b, y);
    } else {
      var s, t :| s in good && t in good && incompat(s, t) && dag.AtOrBefore(x, s) && dag.AtOrBefore(t, y);
      assert dag.Before(s, t);
    }
  }

  // ----- the stage -----

  ghost function Good(all: seq<Scc>, pred: Scc -> bool): set<Scc>
  {
    set x | x in all && pred(x)
  }

  ghost function Bad(all: seq<Scc>, pred: Scc -> bool): set<Scc>
  {
    set x | x in all && !pred(x)
  }

  ghost predicate Incompatible(dag: Dag, all: seq<Scc>, pred: Scc -> bool, incompat: Relation, x: Scc, y: Scc)
  {
    NonMergeable(dag, Good(all, pred), Bad(all, pred), incompat, x, y)
  }

  /** `kept` may form one stage: no two of its SCCs are non-mergeable, and nothing lies between them. */
  ghost predicate StageOk(dag: Dag, all: seq<Scc>, pred: Scc -> bool, incompat: Relation, kept: seq<Scc>)
  {
    && (forall x | x in kept :: x in Good(all, pred))
    && (forall x, y | x in kept && y in kept :: !Incompatible(dag, all, pred, incompat, x, y))
    && (forall x, g, y | x in kept && y in kept && g in all && dag.Before(x, g) && dag.Before(g, y) :: g in kept)
  }

  /** The good SCCs left out of `kept` cost at most twice any set whose removal leaves no non-mergeable pair. */
  ghost predicate DiscardsAtMostTwice(dag: Dag, all: seq<Scc>, weight: map<Scc, int>, pred: Scc -> bool, incompat: Relation, kept: seq<Scc>)
  {
    forall X: set<Scc> | Separates(NonMergeablePairs(dag, Good(all, pred), Bad(all, pred), incompat), X) ::
      Sum(Good(all, pred) - Elems(kept), Cost(weight)) <= 2 * Sum(X, Cost(weight))
  }

  /** The good SCCs left out of `kept` cost no more than any set whose removal leaves no non-mergeable pair. */
  ghost predicate DiscardsLeast(dag: Dag, all: seq<Scc>, weight: map<Scc, int>, pred: Scc -> bool, incompat: Relation, kept: seq<Scc>)
  {
    forall X: set<Scc> | Separates(NonMergeablePairs(dag, Good(all, pred), Bad(all, pred), incompat), X) ::
      Sum(Good(all, pred) - Elems(kept), Cost(weight)) <= Sum(X, Cost(weight))
  }

  method Classify(all: seq<Scc>, pred: Scc -> bool) returns (good: seq<Scc>, bad: seq<Scc>)
    ensures Elems(good) == Good(all, pred) && Elems(bad) == Bad(all, pred)
    ensures forall x :: x in good <==> x in all && pred(x)
    ensures Restricts(good, all)
  {
    good, bad := [], [];
    for i := 0 to |all|
      invariant forall x :: multiset(good)[x] == if pred(x) then multiset(all[..i])[x] else 0
      invariant forall x :: x in good <==> x in all[..i] && pred(x)
      invariant forall x :: x in bad <==> x in all[..i] && !pred(x)
    {
      assert all[..i + 1] == all[..i] + [all[i]];
      if pred(all[i]) {
        good := good + [all[i]];
      } else {
        bad := bad + [all[i]];
      }
    }
    assert all[..|all|] == all;
    assert forall x :: x in Elems(good) <==> x in Good(all, pred);
    assert forall x :: x in Elems(bad) <==> x in Bad(all, pred);
  }

  /** The good SCCs of which the cut touches neither vertex. */
  method Untouched(good: seq<Scc>, cut: seq<Vertex>) returns (kept: seq<Scc>)
    ensures forall x :: x in kept <==> x in good && Left(x) !in cut && Right(x) !in cut
    ensures Restricts(kept, good)
  {
    kept := [];
    for i := 0 to |good|
      invariant forall x :: multiset(kept)[x] == if Left(x) !in cut && Right(x) !in cut then multiset(good[..i])[x] else 0
      invariant forall x :: x in kept <==> x in good[..i] && Left(x) !in cut && Right(x) !in cut
    {
      assert good[..i + 1] == good[..i] + [good[i]];
      if Left(good[i]) !in cut && Right(good[i]) !in cut {
        kept := kept + [good[i]];
      }
    }
    assert good[..|good|] == good;
  }

  method Others(all: seq<Scc>, kept: seq<Scc>) returns (rest: seq<Scc>)
    ensures forall x :: x in rest <==> x in all && x !in kept
    ensures Restricts(rest, all)
  {
    rest := [];
    for i := 0 to |all|
      invariant forall x :: multiset(rest)[x] == if x !in kept then multiset(all[..i])[x] else 0
      invariant forall x :: x in rest <==> x in all[..i] && x !in kept
    {
      assert all[..i + 1] == all[..i] + [all[i]];
      if all[i] !in kept {
        rest := rest + [all[i]];
      }
    }
    assert all[..|all|] == all;
  }

  /** `kept` lists the good SCCs that the cut R splits. */
  ghost predicate KeepsSplit(R: set<Vertex>, good: set<Scc>, kept: seq<Scc>)
  {
    forall x :: x in kept <==> x in good && Split(R, x)
  }

  lemma UntouchedAreSplit(cap: EdgeWeights, flow: EdgeWeights, total: nat, R: set<Vertex>, good: set<Scc>,
                          weight: map<Scc, int>, nm: Relation, cut: seq<Vertex>, kept: seq<Scc>)
    requires CutSide(cap, flow, total, R, good, weight, nm)
    requires forall v: Vertex :: v in cut <==> OnBoundary(cap, R, v)
    requires forall x :: x in kept <==> x in good && Left(x) !in cut && Right(x) !in cut
    ensures KeepsSplit(R, good, kept)
  {
    forall x ensures x in kept <==> x in good && Split(R, x) {
      if x in good {
        UntouchedIffSplit(cap, flow, total, R, good, weight, nm, x);
      }
    }
  }

  lemma CutGivesStage(dag: Dag, all: seq<Scc>, pred: Scc -> bool, incompat: Relation, weight: map<Scc, int>,
                      cap: EdgeWeights, flow: EdgeWeights, total: nat, R: set<Vertex>, kept: seq<Scc>)
    requires StrictOrder(dag) && KeepsSplit(R, Good(all, pred), kept)
    requires CutSide(cap, flow, total, R, Good(all, pred), weight, NonMergeablePairs(dag, Good(all, pred), Bad(all, pred), incompat))
    ensures StageOk(dag, all, pred, incompat, kept)
  {
    var good, bad := Good(all, pred), Bad(all, pred);
    var nm := NonMergeablePairs(dag, good, bad, incompat);
    forall x, y | x in kept && y in kept ensures !Incompatible(dag, all, pred, incompat, x, y) {
      if nm(x, y) {
        PairStaysInside(cap, flow, total, R, good, weight, nm, x, y);
      }
    }
    forall x, g, y | x in kept && y in kept && g in all && dag.Before(x, g) && dag.Before(g, y) ensures g in kept {
      SplitIsConvex(dag, cap, flow, total, R, good, bad, incompat, weight, x, g, y);
    }
  }

  lemma CutDiscardsLittle(dag: Dag, all: seq<Scc>, pred: Scc -> bool, incompat: Relation, weight: map<Scc, int>,
                          cap: EdgeWeights, flow: EdgeWeights, total: nat, R: set<Vertex>, kept: seq<Scc>)
    requires StrictOrder(dag) && KeepsSplit(R, Good(all, pred), kept)
    requires CutSide(cap, flow, total, R, Good(all, pred), weight, NonMergeablePairs(dag, Good(all, pred), Bad(all, pred), incompat))
    ensures DiscardsAtMostTwice(dag, all, weight, pred, incompat, kept)
    ensures Directed(dag, Good(all, pred), incompat) ==> DiscardsLeast(dag, all, weight, pred, incompat, kept)
  {
    var good := Good(all, pred);
    var nm := NonMergeablePairs(dag, good, Bad(all, pred), incompat);
    var D := good - Elems(kept);
    forall X: set<Scc> | Separates(nm, X) ensures Sum(D, Cost(weight)) <= 2 * Sum(X, Cost(weight)) {
      DiscardedAtMostTwice(cap, flow, total, R, good, weight, nm, D, X);
    }
    if Directed(dag, good, incompat) {
      DirectedIsTransitive(dag, good, Bad(all, pred), incompat);
      forall X: set<Scc> | Separates(nm, X) ensures Sum(D, Cost(weight)) <= Sum(X, Cost(weight)) {
        DiscardedAtMostRemoved(cap, flow, total, R, good, weight, nm, D, X);
      }
    }
  }

  /** Selects the SCCs that satisfy `pred` and that the minimum cut leaves whole. */
  method FindMaxGoodStage(dag: Dag, all: seq<Scc>, weight: map<Scc, int>, pred: Scc -> bool, incompat: Relation)
    returns (found: bool, kept: seq<Scc>, rest: seq<Scc>)
    requires dag.Valid() && forall x | x in all :: x in dag.nodes
    requires WeightsFit(weight, Good(all, pred))
    ensures StageOk(dag, all, pred, incompat, kept)
    ensures DiscardsAtMostTwice(dag, all, weight, pred, incompat, kept)
    ensures Directed(dag, Good(all, pred), incompat) ==> DiscardsLeast(dag, all, weight, pred, incompat, kept)
    ensures found <==> kept != []
    ensures forall x :: x in rest <==> found && x in all && x !in kept
    ensures Restricts(kept, all) && Restricts(rest, all)
  {
    ValidIsStrictOrder(dag);
    kept, rest := [], [];
    var good, bad := Classify(all, pred);
    if |good| < 1 {
      found := false;
      NothingGood(dag, all, weight, pred, incompat);
      return;
    }
    ghost var nm := NonMergeablePairs(dag, Good(all, pred), Bad(all, pred), incompat);
    var adj, cap := AddTerminalEdges(good, weight, nm);
    adj, cap := WireNonMergeable(dag, good, bad, incompat, adj, cap, weight);
    WiredIsNetwork(adj, cap, Elems(good), weight, nm);
    var cut, R, flow, total := ComputeMinCut(adj, cap);
    kept := Untouched(good, cut);
    UntouchedAreSplit(cap, flow, total, R, Good(all, pred), weight, nm, cut, kept);
    CutGivesStage(dag, all, pred, incompat, weight, cap, flow, total, R, kept);
    CutDiscardsLittle(dag, all, pred, incompat, weight, cap, flow, total, R, kept);
    if kept == [] {
      found := false;
      return;
    }
    rest := Others(all, kept);
    found := true;
  }

  lemma NothingGood(dag: Dag, all: seq<Scc>, weight: map<Scc, int>, pred: Scc -> bool, incompat: Relation)
    requires Good(all, pred) == {} && WeightsFit(weight, {})
    ensures DiscardsAtMostTwice(dag, all, weight, pred, incompat, []) && DiscardsLeast(dag, all, weight, pred, incompat, [])
  {
    forall X: set<Scc> ensures 0 == Sum({}, Cost(weight)) <= Sum(X, Cost(weight)) {
      SumSubset({}, X, Cost(weight));
    }
    assert Good(all, pred) - Elems([]) == {};
  }
}
