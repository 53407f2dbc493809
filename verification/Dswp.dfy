/** Splitting an SCC DAG into balanced pipeline stages: fill each stage with free-standing SCCs
    until it reaches the target weight, and put whatever is left into the last one. */
module Dswp {
  import opened FiniteSums
  import opened MachineInts
  import opened SccDag

  type Counts = map<Scc, int>

  /** The 32-bit value of -1, which marks a placed SCC. */
  const PLACED: int := UNSIGNED - 1

  /** The profile weight of an SCC, zero where the profile has none. */
  function Weight(weight: map<Scc, int>, x: Scc): (w: int)
    ensures if x in weight then (x, w) in weight.Items else w == 0
  {
    if x in weight then weight[x] else 0
  }

  ghost function WeightFn(weight: map<Scc, int>): Scc -> int
  {
    (x: Scc) => Weight(weight, x)
  }

  ghost function WeightOfSet(weight: map<Scc, int>, s: set<Scc>): int
  {
    Sum(s, WeightFn(weight))
  }

  /** Number of edges into x that start in U. */
  ghost function InEdges(edges: seq<DagEdge>, U: set<Scc>, x: Scc): nat
  {
    if edges == [] then 0
    else
      var e := edges[|edges| - 1];
      InEdges(edges[..|edges| - 1], U, x) + if e.dst == x && e.src in U then 1 else 0
  }

  /** Every unplaced SCC is counted with its in-edges from unplaced SCCs; every placed one is marked. */
  ghost predicate Counted(dag: Dag, counts: Counts, unplaced: set<Scc>)
  {
    && unplaced <= dag.nodes && counts.Keys == dag.nodes
    && (forall x | x in dag.nodes :: counts[x] == if x in unplaced then InEdges(dag.edges, unplaced, x) else PLACED)
  }

  lemma {:induction false} InEdgesBound(edges: seq<DagEdge>, U: set<Scc>, x: Scc)
    ensures InEdges(edges, U, x) <= |edges|
  {
    if edges != [] {
      InEdgesBound(edges[..|edges| - 1], U, x);
    }
  }

  lemma {:induction false} NoInEdges(edges: seq<DagEdge>, U: set<Scc>, x: Scc)
    ensures InEdges(edges, U, x) == 0 <==> forall e | e in edges && e.dst == x :: e.src !in U
  {
    if edges != [] {
      var front, e := edges[..|edges| - 1], edges[|edges| - 1];
      NoInEdges(front, U, x);
      assert edges == front + [e];
    }
  }

  ghost function Predecessors(dag: Dag, U: set<Scc>, x: Scc): set<Scc>
  {
    set y | y in U && dag.Before(y, x)
  }

  lemma PredecessorsShrink(dag: Dag, U: set<Scc>, y: Scc, x: Scc)
    requires StrictOrder(dag) && dag.Before(y, x) && y in U
    ensures Predecessors(dag, U, y) < Predecessors(dag, U, x)
  {
    assert y in Predecessors(dag, U, x) && y !in Predecessors(dag, U, y);
  }

  /** While SCCs remain, one of them has no in-edge from the others. */
  lemma {:induction false} FreeSccExists(dag: Dag, U: set<Scc>, x: Scc) returns (free: Scc)
    requires StrictOrder(dag) && x in U
    ensures free in U && InEdges(dag.edges, U, free) == 0
    decreases Predecessors(dag, U, x)
  {
    if InEdges(dag.edges, U, x) == 0 {
      return x;
    }
    NoInEdges(dag.edges, U, x);
    var e :| e in dag.edges && e.dst == x && e.src in U;
    PredecessorsShrink(dag, U, e.src, x);
    free := FreeSccExists(dag, U, e.src);
  }

  // ----- the in-degree map -----

  lemma {:induction false} InEdgesRemove(edges: seq<DagEdge>, U: set<Scc>, x: Scc, y: Scc)
    requires x in U
    ensures InEdges(edges, U, y) == InEdges(edges, U - {x}, y) + InEdges(edges, {x}, y)
  {
    if edges != [] {
      InEdgesRemove(edges[..|edges| - 1], U, x, y);
    }
  }

  lemma {:induction false} InEdgesPrefix(edges: seq<DagEdge>, n: nat, U: set<Scc>, x: Scc)
    requires n <= |edges|
    ensures InEdges(edges[..n], U, x) <= InEdges(edges, U, x)
    decreases |edges|
  {
    if n < |edges| {
      InEdgesPrefix(edges[..|edges| - 1], n, U, x);
      assert edges[..|edges| - 1][..n] == edges[..n];
    } else {
      assert edges[..n] == edges;
    }
  }

  lemma InEdgesNext(edges: seq<DagEdge>, i: nat, U: set<Scc>, x: Scc)
    requires i < |edges|
    ensures InEdges(edges[..i + 1], U, x) == InEdges(edges[..i], U, x) + if edges[i].dst == x && edges[i].src in U then 1 else 0
  {
    assert edges[..i + 1][..i] == edges[..i];
  }

  method NumIncoming(edges: seq<DagEdge>, x: Scc, ghost nodes: set<Scc>) returns (n: int)
    requires forall e | e in edges :: e.src in nodes
    ensures n == InEdges(edges, nodes, x)
  {
    n := 0;
    for i := 0 to |edges|
      invariant n == InEdges(edges[..i], nodes, x)
    {
      InEdgesNext(edges, i, nodes, x);
      assert edges[i] in edges;
      if edges[i].dst == x {
        n := n + 1;
      }
    }
    assert edges[..|edges|] == edges;
  }

  /** `sccs` lists the nodes of the DAG, each once, in the order in which it is traversed. */
  ghost predicate Lists(dag: Dag, sccs: seq<Scc>)
  {
    Elems(sccs) == dag.nodes && Distinct(sccs)
  }

  ghost predicate EdgesInside(dag: Dag)
  {
    forall e | e in dag.edges :: e.src in dag.nodes && e.dst in dag.nodes
  }

  method IncomingCounts(dag: Dag, sccs: seq<Scc>) returns (counts: Counts)
    requires EdgesInside(dag) && Lists(dag, sccs)
    ensures Counted(dag, counts, dag.nodes)
  {
    counts := map[];
    for i := 0 to |sccs|
      invariant counts.Keys == Elems(sccs[..i])
      invariant forall x | x in counts :: counts[x] == InEdges(dag.edges, dag.nodes, x)
    {
      var n := NumIncoming(dag.edges, sccs[i], dag.nodes);
      assert Elems(sccs[..i + 1]) == Elems(sccs[..i]) + {sccs[i]} by {
        assert sccs[..i + 1] == sccs[..i] + [sccs[i]];
      }
      counts := counts[sccs[i] := n];
    }
    assert sccs[..|sccs|] == sccs;
  }

  // ----- the greedy choice -----

  /** Position of x in the traversal order. */
  ghost function Rank(sccs: seq<Scc>, x: Scc): int
  {
    if x in sccs then var i :| 0 <= i < |sccs| && sccs[i] == x; i else |sccs|
  }

  lemma RankAt(sccs: seq<Scc>, i: int)
    requires Distinct(sccs) && 0 <= i < |sccs|
    ensures Rank(sccs, sccs[i]) == i
  {
  }

  /** x is preferred to y: it is heavier, or as heavy and traversed first. */
  ghost predicate Heavier(weight: map<Scc, int>, sccs: seq<Scc>, x: Scc, y: Scc)
  {
    Weight(weight, x) > Weight(weight, y) || (Weight(weight, x) == Weight(weight, y) && Rank(sccs, x) < Rank(sccs, y))
  }

  /** The heaviest SCC whose count is zero, if there is one; among equals the first. */
  method NextLargestFree(sccs: seq<Scc>, counts: Counts, weight: map<Scc, int>) returns (found: bool, best: Scc)
    requires Distinct(sccs) && forall i | 0 <= i < |sccs| :: sccs[i] in counts
    requires forall x | x in weight :: weight[x] >= 0
    ensures found ==> best in sccs && counts[best] == 0
    ensures !found ==> forall x | x in sccs :: counts[x] != 0
    ensures found ==> forall x | x in sccs && counts[x] == 0 && x != best :: Heavier(weight, sccs, best, x)
  {
    found, best := false, 0;
    var largest := -1;
    ghost var at := 0;
    for i := 0 to |sccs|
      invariant found ==> 0 <= at < i && sccs[at] == best && counts[best] == 0 && largest == Weight(weight, best)
      invariant found ==> forall j | 0 <= j < i && j != at && counts[sccs[j]] == 0 ::
                  Weight(weight, sccs[j]) < largest || (Weight(weight, sccs[j]) == largest && at < j)
      invariant !found ==> largest == -1 && forall j | 0 <= j < i :: counts[sccs[j]] != 0
    {
      var x := sccs[i];
      assert x in sccs;
      if counts[x] == 0 && Weight(weight, x) > largest {
        found, best, largest, at := true, x, Weight(weight, x), i;
      }
    }
    if found {
      RankAt(sccs, at);
      forall x | x in sccs && counts[x] == 0 && x != best ensures Heavier(weight, sccs, best, x) {
        var j :| 0 <= j < |sccs| && sccs[j] == x;
        RankAt(sccs, j);
      }
    }
  }

  /** Everything y depends on is among `placed`. */
  ghost predicate Ready(dag: Dag, placed: set<Scc>, y: Scc)
  {
    forall e | e in dag.edges && e.dst == y :: e.src in placed
  }

  /** What is listed at position p was preferred to everything else that could have been listed there. */
  ghost predicate ChosenAt(dag: Dag, weight: map<Scc, int>, sccs: seq<Scc>, order: seq<Scc>, p: int)
    requires 0 <= p < |order|
  {
    forall y | y in dag.nodes && y !in order[..p + 1] && Ready(dag, Elems(order[..p]), y) :: Heavier(weight, sccs, order[p], y)
  }

  ghost predicate Greedy(dag: Dag, weight: map<Scc, int>, sccs: seq<Scc>, order: seq<Scc>)
  {
    forall p | 0 <= p < |order| :: ChosenAt(dag, weight, sccs, order, p)
  }

  lemma ChosenStays(dag: Dag, weight: map<Scc, int>, sccs: seq<Scc>, order: seq<Scc>, more: seq<Scc>, p: int)
    requires 0 <= p < |order| && ChosenAt(dag, weight, sccs, order, p)
    ensures ChosenAt(dag, weight, sccs, order + more, p)
  {
    assert (order + more)[..p + 1] == order[..p + 1] && (order + more)[..p] == order[..p];
  }

  lemma GreedyNext(dag: Dag, weight: map<Scc, int>, sccs: seq<Scc>, counts: Counts, unplaced: set<Scc>, order: seq<Scc>, x: Scc)
    requires Greedy(dag, weight, sccs, order) && Elems(order) == dag.nodes - unplaced
    requires Lists(dag, sccs) && Counted(dag, counts, unplaced)
    requires forall y | y in sccs && counts[y] == 0 && y != x :: Heavier(weight, sccs, x, y)
    ensures Greedy(dag, weight, sccs, order + [x])
  {
    var next := order + [x];
    forall p | 0 <= p < |next| ensures ChosenAt(dag, weight, sccs, next, p) {
      if p < |order| {
        ChosenStays(dag, weight, sccs, order, [x], p);
      } else {
        assert next[..p] == order && next[..p + 1] == next;
        forall y | y in dag.nodes && y !in next && Ready(dag, Elems(order), y) ensures Heavier(weight, sccs, x, y) {
          ReadyIsFree(dag, sccs, counts, unplaced, order, y);
          assert x in next;
        }
      }
    }
  }

  lemma ReadyIsFree(dag: Dag, sccs: seq<Scc>, counts: Counts, unplaced: set<Scc>, order: seq<Scc>, y: Scc)
    requires Elems(order) == dag.nodes - unplaced && Lists(dag, sccs) && Counted(dag, counts, unplaced)
    requires y in dag.nodes && y !in order && Ready(dag, Elems(order), y)
    ensures y in sccs && counts[y] == 0
  {
    assert y !in Elems(order) && y in Elems(sccs);
    forall e | e in dag.edges && e.dst == y ensures e.src !in unplaced {
      assert e.src in Elems(order);
    }
    NoInEdges(dag.edges, unplaced, y);
  }

  /** Leftovers of no weight, listed in traversal order, go on greedily. */
  lemma GreedyRest(dag: Dag, weight: map<Scc, int>, sccs: seq<Scc>, order: seq<Scc>, rest: seq<Scc>)
    requires Greedy(dag, weight, sccs, order) && Elems(rest) == dag.nodes - Elems(order)
    requires forall x | x in rest :: Weight(weight, x) == 0
    requires forall a, b | 0 <= a < b < |rest| :: Rank(sccs, rest[a]) < Rank(sccs, rest[b])
    ensures Greedy(dag, weight, sccs, order + rest)
  {
    var all := order + rest;
    forall p | 0 <= p < |all| ensures ChosenAt(dag, weight, sccs, all, p) {
      if p < |order| {
        ChosenStays(dag, weight, sccs, order, rest, p);
      } else {
        forall y | y in dag.nodes && y !in all[..p + 1] ensures Heavier(weight, sccs, all[p], y) {
          LaterLeftover(dag, order, rest, p, y);
          var b :| p - |order| < b < |rest| && rest[b] == y;
          assert all[p] == rest[p - |order|] && all[p] in rest && y in rest;
        }
      }
    }
  }

  lemma LaterLeftover(dag: Dag, order: seq<Scc>, rest: seq<Scc>, p: int, y: Scc)
    requires |order| <= p < |order| + |rest| && Elems(rest) == dag.nodes - Elems(order)
    requires y in dag.nodes && y !in (order + rest)[..p + 1]
    ensures exists b :: p - |order| < b < |rest| && rest[b] == y
  {
    var all := order + rest;
    forall i | 0 <= i <= p ensures all[i] != y {
      assert all[..p + 1][i] == all[i];
    }
    forall i | 0 <= i < |order| ensures order[i] != y {
      assert order[i] == all[i];
    }
    assert y !in Elems(order);
    assert y in Elems(rest);
    var b :| 0 <= b < |rest| && rest[b] == y;
    assert all[|order| + b] == y;
  }

  /** Nothing placed depends on anything unplaced. */
  ghost predicate Downward(dag: Dag, unplaced: set<Scc>)
  {
    forall e | e in dag.edges && e.src in unplaced :: e.dst in unplaced
  }

  /** Marks x as placed and takes its out-edges off the counts. */
  method Place(dag: Dag, counts0: Counts, x: Scc, ghost unplaced: set<Scc>) returns (counts: Counts)
    requires StrictOrder(dag) && EdgesInside(dag) && |dag.edges| < PLACED
    requires Counted(dag, counts0, unplaced) && Downward(dag, unplaced) && x in unplaced && counts0[x] == 0
    ensures Counted(dag, counts, unplaced - {x}) && Downward(dag, unplaced - {x})
  {
    counts := counts0[x := PLACED];
    var edges := dag.edges;
    ghost var left := unplaced - {x};
    NoInEdges(edges, unplaced, x);
    for i := 0 to |edges|
      invariant counts.Keys == dag.nodes
      invariant forall y | y in dag.nodes && y !in left :: counts[y] == PLACED
      invariant forall y | y in left :: counts[y] == InEdges(edges, unplaced, y) - InEdges(edges[..i], {x}, y)
    {
      var e := edges[i];
      assert e in edges;
      forall y | y in left ensures InEdges(edges[..i + 1], {x}, y) == InEdges(edges[..i], {x}, y) + if e.dst == y && e.src == x then 1 else 0 {
        InEdgesNext(edges, i, {x}, y);
      }
      if e.src == x {
        StillCounted(edges, unplaced, x, e.dst, i);
        counts := counts[e.dst := Decrement(counts[e.dst])];
      }
    }
    assert edges[..|edges|] == edges;
    forall y | y in left ensures counts[y] == InEdges(edges, left, y) {
      InEdgesRemove(edges, unplaced, x, y);
    }
  }

  lemma StillCounted(edges: seq<DagEdge>, U: set<Scc>, x: Scc, y: Scc, i: nat)
    requires i < |edges| && edges[i].src == x && edges[i].dst == y && x in U
    ensures InEdges(edges, U, y) - InEdges(edges[..i], {x}, y) > 0
  {
    InEdgesRemove(edges, U, x, y);
    InEdgesNext(edges, i, {x}, y);
    InEdgesPrefix(edges, i + 1, {x}, y);
  }

  // ----- filling stages -----

  ghost predicate HeaviestIs(dag: Dag, weight: map<Scc, int>, heaviest: int)
  {
    && heaviest >= 0
    && (forall x | x in weight :: weight[x] >= 0)
    && (forall x | x in dag.nodes :: Weight(weight, x) <= heaviest)
  }

  lemma AppendWeight(weight: map<Scc, int>, stage: seq<Scc>, x: Scc)
    requires x !in stage
    ensures Elems(stage + [x]) == Elems(stage) + {x}
    ensures WeightOfSet(weight, Elems(stage + [x])) == WeightOfSet(weight, Elems(stage)) + Weight(weight, x)
  {
    SumRemove(Elems(stage + [x]), x, WeightFn(weight));
    assert Elems(stage + [x]) - {x} == Elems(stage);
  }

  /** w is at most total / n plus the heaviest SCC. */
  ghost predicate Within(w: int, n: int, total: int, heaviest: int)
  {
    w * n <= total + heaviest * n
  }

  lemma Overshoot(c: int, w: int, n: int, total: int, heaviest: int)
    requires c * n < total && w <= heaviest && n > 0
    ensures Within(c + w, n, total, heaviest)
  {
    assert (c + w) * n == c * n + w * n;
    assert w * n <= heaviest * n;
  }

  /** The stage holds what was taken out of the unplaced SCCs, and weighs w. */
  ghost predicate Taken(weight: map<Scc, int>, unplaced0: set<Scc>, unplaced: set<Scc>, stage: seq<Scc>, w: int)
  {
    unplaced <= unplaced0 && Elems(stage) == unplaced0 - unplaced && Distinct(stage) && w == WeightOfSet(weight, Elems(stage))
  }

  lemma TakeOne(weight: map<Scc, int>, unplaced0: set<Scc>, unplaced: set<Scc>, stage: seq<Scc>, w: int, x: Scc)
    requires Taken(weight, unplaced0, unplaced, stage, w) && x in unplaced
    ensures Taken(weight, unplaced0, unplaced - {x}, stage + [x], w + Weight(weight, x))
  {
    AppendWeight(weight, stage, x);
    forall y ensures y in Elems(stage + [x]) <==> y in unplaced0 - (unplaced - {x}) { }
  }

  ghost predicate Filling(weight: map<Scc, int>, unplaced0: set<Scc>, unplaced: set<Scc>, stage: seq<Scc>, w: int, n: int, total: int, heaviest: int)
  {
    Taken(weight, unplaced0, unplaced, stage, w) && Within(w, n, total, heaviest)
  }

  lemma StartFilling(dag: Dag, weight: map<Scc, int>, unplaced: set<Scc>, n: int, total: int, heaviest: int)
    requires HeaviestIs(dag, weight, heaviest) && n > 0 && total >= 0
    ensures Filling(weight, unplaced, unplaced, [], 0, n, total, heaviest)
  {
    assert Elems<Scc>([]) == unplaced - unplaced;
    assert heaviest * n >= 0;
  }

  lemma FillOne(dag: Dag, weight: map<Scc, int>, unplaced0: set<Scc>, unplaced: set<Scc>, stage: seq<Scc>, w: int,
                n: int, total: int, heaviest: int, x: Scc)
    requires Filling(weight, unplaced0, unplaced, stage, w, n, total, heaviest) && HeaviestIs(dag, weight, heaviest)
    requires x in unplaced && x in dag.nodes && n > 0 && w * n < total
    ensures Filling(weight, unplaced0, unplaced - {x}, stage + [x], w + Weight(weight, x), n, total, heaviest)
  {
    TakeOne(weight, unplaced0, unplaced, stage, w, x);
    Overshoot(w, Weight(weight, x), n, total, heaviest);
  }

  /** Without its last SCC the stage falls short of total / n. */
  ghost predicate Short(weight: map<Scc, int>, stage: seq<Scc>, n: int, total: int)
  {
    stage == [] || WeightOfSet(weight, Elems(stage[..|stage| - 1])) * n < total
  }

  ghost predicate GreedyStage(dag: Dag, weight: map<Scc, int>, sccs: seq<Scc>, order: seq<Scc>, stage: seq<Scc>, unplaced: set<Scc>, n: int, total: int)
  {
    Greedy(dag, weight, sccs, order + stage) && Elems(order + stage) == dag.nodes - unplaced && Short(weight, stage, n, total)
  }

  lemma GreedyStageNext(dag: Dag, weight: map<Scc, int>, sccs: seq<Scc>, counts: Counts, order: seq<Scc>, stage: seq<Scc>,
                        unplaced0: set<Scc>, unplaced: set<Scc>, w: int, n: int, total: int, x: Scc)
    requires GreedyStage(dag, weight, sccs, order, stage, unplaced, n, total) && Lists(dag, sccs) && Counted(dag, counts, unplaced)
    requires Taken(weight, unplaced0, unplaced, stage, w) && w * n < total && x in unplaced
    requires forall y | y in sccs && counts[y] == 0 && y != x :: Heavier(weight, sccs, x, y)
    ensures GreedyStage(dag, weight, sccs, order, stage + [x], unplaced - {x}, n, total)
  {
    GreedyNext(dag, weight, sccs, counts, unplaced, order + stage, x);
    assert order + (stage + [x]) == (order + stage) + [x];
    assert (stage + [x])[..|stage|] == stage;
    forall y ensures y in Elems(order + stage + [x]) <==> y in dag.nodes - (unplaced - {x}) {
      assert y in Elems(order + stage) <==> y in dag.nodes - unplaced;
    }
  }

  /** The state while a stage is being filled. */
  ghost predicate FillState(dag: Dag, sccs: seq<Scc>, weight: map<Scc, int>, n: int, total: int, heaviest: int, order: seq<Scc>, unplaced0: set<Scc>,
                            counts: Counts, unplaced: set<Scc>, stage: seq<Scc>, w: int)
  {
    && Counted(dag, counts, unplaced) && Downward(dag, unplaced)
    && Filling(weight, unplaced0, unplaced, stage, w, n, total, heaviest)
    && GreedyStage(dag, weight, sccs, order, stage, unplaced, n, total)
  }

  /** Takes the heaviest free SCC, if there is one. */
  method TakeNext(dag: Dag, sccs: seq<Scc>, weight: map<Scc, int>, ghost n: int, ghost total: int, ghost heaviest: int, ghost order: seq<Scc>,
                  ghost unplaced0: set<Scc>, counts0: Counts, ghost unplaced: set<Scc>, stage0: seq<Scc>, currWeight0: int)
    returns (found: bool, counts: Counts, stage: seq<Scc>, currWeight: int, ghost left: set<Scc>)
    requires StrictOrder(dag) && EdgesInside(dag) && Lists(dag, sccs) && |dag.edges| < PLACED
    requires HeaviestIs(dag, weight, heaviest) && n > 0 && currWeight0 * n < total
    requires FillState(dag, sccs, weight, n, total, heaviest, order, unplaced0, counts0, unplaced, stage0, currWeight0)
    ensures FillState(dag, sccs, weight, n, total, heaviest, order, unplaced0, counts, left, stage, currWeight)
    ensures if found then left < unplaced else left == unplaced == {}
  {
    forall i | 0 <= i < |sccs| ensures sccs[i] in counts0 {
      assert sccs[i] in Elems(sccs);
    }
    var x;
    found, x := NextLargestFree(sccs, counts0, weight);
    if !found {
      NothingFree(dag, sccs, counts0, unplaced);
      return false, counts0, stage0, currWeight0, unplaced;
    }
    assert x in Elems(sccs);
    FreeIsUnplaced(dag, counts0, unplaced, x);
    GreedyStageNext(dag, weight, sccs, counts0, order, stage0, unplaced0, unplaced, currWeight0, n, total, x);
    FillOne(dag, weight, unplaced0, unplaced, stage0, currWeight0, n, total, heaviest, x);
    stage := stage0 + [x];
    currWeight := currWeight0 + Weight(weight, x);
    counts := Place(dag, counts0, x, unplaced);
    left := unplaced - {x};
  }

  /** Adds free SCCs, the heaviest first, until the stage reaches total / n, or nothing is left. */
  method FillStage(dag: Dag, sccs: seq<Scc>, weight: map<Scc, int>, n: int, total: int, counts0: Counts,
                   ghost unplaced0: set<Scc>, ghost order: seq<Scc>, ghost heaviest: int)
    returns (stage: seq<Scc>, counts: Counts, ghost unplaced: set<Scc>)
    requires StrictOrder(dag) && EdgesInside(dag) && Lists(dag, sccs) && |dag.edges| < PLACED
    requires Counted(dag, counts0, unplaced0) && Downward(dag, unplaced0)
    requires HeaviestIs(dag, weight, heaviest) && n > 0 && total >= 0
    requires Greedy(dag, weight, sccs, order) && Elems(order) == dag.nodes - unplaced0
    ensures Counted(dag, counts, unplaced) && Downward(dag, unplaced)
    ensures Greedy(dag, weight, sccs, order + stage) && Short(weight, stage, n, total)
    ensures unplaced <= unplaced0 && Elems(stage) == unplaced0 - unplaced && Distinct(stage)
    ensures Within(WeightOfSet(weight, Elems(stage)), n, total, heaviest)
    ensures unplaced == {} || WeightOfSet(weight, Elems(stage)) * n >= total
  {
    stage, counts, unplaced := [], counts0, unplaced0;
    var currWeight := 0;
    StartFilling(dag, weight, unplaced, n, total, heaviest);
    assert order + [] == order;
    while currWeight * n < total
      invariant FillState(dag, sccs, weight, n, total, heaviest, order, unplaced0, counts, unplaced, stage, currWeight)
      decreases unplaced
    {
      var found;
      found, counts, stage, currWeight, unplaced :=
        TakeNext(dag, sccs, weight, n, total, heaviest, order, unplaced0, counts, unplaced, stage, currWeight);
      if !found {
        break;
      }
    }
  }

  lemma FreeIsUnplaced(dag: Dag, counts: Counts, unplaced: set<Scc>, x: Scc)
    requires Counted(dag, counts, unplaced) && x in dag.nodes && counts[x] == 0
    ensures x in unplaced
  {
  }

  lemma NothingFree(dag: Dag, sccs: seq<Scc>, counts: Counts, unplaced: set<Scc>)
    requires StrictOrder(dag) && Lists(dag, sccs) && Counted(dag, counts, unplaced)
    requires forall x | x in sccs :: counts[x] != 0
    ensures unplaced == {}
  {
    if unplaced != {} {
      var x := SomeFree(dag, sccs, counts, unplaced);
    }
  }

  lemma SomeFree(dag: Dag, sccs: seq<Scc>, counts: Counts, unplaced: set<Scc>) returns (free: Scc)
    requires StrictOrder(dag) && Lists(dag, sccs) && Counted(dag, counts, unplaced) && unplaced != {}
    ensures free in sccs && counts[free] == 0
  {
    var x := Witness(unplaced);
    free := FreeSccExists(dag, unplaced, x);
    assert free in Elems(sccs);
  }

  // ----- the partition -----

  ghost function Placed(stages: seq<seq<Scc>>): set<Scc>
  {
    set i, x | 0 <= i < |stages| && x in stages[i] :: x
  }

  /** Every dependence stays within a stage or goes to a later one. */
  ghost predicate ForwardStages(dag: Dag, stages: seq<seq<Scc>>)
  {
    forall e, i, j | e in dag.edges && 0 <= i < |stages| && 0 <= j < |stages| && e.src in stages[i] && e.dst in stages[j] :: i <= j
  }

  ghost predicate DisjointStages(stages: seq<seq<Scc>>)
  {
    forall i, j, x | 0 <= i < j < |stages| && x in stages[i] :: x !in stages[j]
  }

  /** Every stage weighs at most total / n plus the heaviest SCC. */
  ghost predicate Balanced(weight: map<Scc, int>, stages: seq<seq<Scc>>, n: int, total: int, heaviest: int)
  {
    forall i | 0 <= i < |stages| :: Within(WeightOfSet(weight, Elems(stages[i])), n, total, heaviest)
  }

  ghost predicate Built(dag: Dag, weight: map<Scc, int>, stages: seq<seq<Scc>>, unplaced: set<Scc>, n: int, total: int, heaviest: int)
  {
    && Placed(stages) == dag.nodes - unplaced
    && DisjointStages(stages)
    && ForwardStages(dag, stages)
    && Balanced(weight, stages, n, total, heaviest)
    && ListedOnce(stages)
  }

  /** No stage is empty or lists an SCC twice. */
  ghost predicate ListedOnce(stages: seq<seq<Scc>>)
  {
    forall i | 0 <= i < |stages| :: stages[i] != [] && Distinct(stages[i])
  }

  lemma PushStage(dag: Dag, weight: map<Scc, int>, stages: seq<seq<Scc>>, stage: seq<Scc>, unplaced: set<Scc>, left: set<Scc>,
                  n: int, total: int, heaviest: int)
    requires Built(dag, weight, stages, unplaced, n, total, heaviest) && unplaced <= dag.nodes
    requires Downward(dag, unplaced) && left <= unplaced && Elems(stage) == unplaced - left
    requires Within(WeightOfSet(weight, Elems(stage)), n, total, heaviest) && stage != [] && Distinct(stage)
    ensures Built(dag, weight, stages + [stage], left, n, total, heaviest)
  {
    var more := stages + [stage];
    forall x ensures x in stage <==> x in unplaced && x !in left {
      assert x in Elems(stage) <==> x in unplaced - left;
    }
    forall i, x | 0 <= i < |stages| && x in stages[i] ensures x !in unplaced {
      assert x in Placed(stages);
    }
    PlacedGrows(stages, stage);
    forall x ensures x in Placed(more) <==> x in dag.nodes - left {
      assert x in Placed(stages) <==> x in dag.nodes - unplaced;
    }
    assert DisjointStages(more);
    assert ForwardStages(dag, more);
  }

  lemma PlacedGrows(stages: seq<seq<Scc>>, stage: seq<Scc>)
    ensures forall x :: x in Placed(stages + [stage]) <==> x in Placed(stages) || x in stage
  {
    var more := stages + [stage];
    forall x ensures x in Placed(more) <==> x in Placed(stages) || x in stage {
      if x in Placed(stages) {
        var i :| 0 <= i < |stages| && x in stages[i];
        assert x in more[i];
      }
      if x in stage {
        assert x in more[|stages|];
      }
    }
  }

  lemma SkipStage(dag: Dag, weight: map<Scc, int>, stages: seq<seq<Scc>>, unplaced: set<Scc>, left: set<Scc>, n: int, total: int, heaviest: int)
    requires Built(dag, weight, stages, unplaced, n, total, heaviest) && left <= unplaced && unplaced - left == {}
    ensures Built(dag, weight, stages, left, n, total, heaviest)
  {
    forall x | x in unplaced ensures x in left {
      assert x !in unplaced - left;
    }
    assert left == unplaced;
  }

  lemma SplitWeight(weight: map<Scc, int>, all: set<Scc>, part: set<Scc>)
    requires part <= all
    ensures WeightOfSet(weight, all) == WeightOfSet(weight, all - part) + WeightOfSet(weight, part)
  {
    SumDisjoint(all - part, part, WeightFn(weight));
    assert (all - part) + part == all;
  }

  lemma NonNegativeWeight(weight: map<Scc, int>, s: set<Scc>)
    requires forall x | x in weight :: weight[x] >= 0
    ensures WeightOfSet(weight, s) >= 0
  {
    SumSubset({}, s, WeightFn(weight));
  }

  /** Once n stages have reached total / n, the rest weighs nothing. */
  lemma RestIsWeightless(placed: int, rest: int, total: int, n: int)
    requires placed + rest == total && rest >= 0 && n > 0 && placed * n >= n * total
    ensures rest == 0
  {
    assert placed * n == (total - rest) * n == total * n - rest * n;
    assert rest > 0 ==> rest * n > 0;
  }

  method TotalWeight(sccs: seq<Scc>, weight: map<Scc, int>) returns (total: int)
    requires Distinct(sccs)
    ensures total == WeightOfSet(weight, Elems(sccs))
  {
    total := 0;
    for i := 0 to |sccs|
      invariant total == WeightOfSet(weight, Elems(sccs[..i]))
    {
      assert sccs[..i + 1] == sccs[..i] + [sccs[i]];
      AppendWeight(weight, sccs[..i], sccs[i]);
      total := total + Weight(weight, sccs[i]);
    }
    assert sccs[..|sccs|] == sccs;
  }

  /** The SCCs not marked as placed, in traversal order. */
  method Leftovers(dag: Dag, sccs: seq<Scc>, counts: Counts, ghost unplaced: set<Scc>) returns (rest: seq<Scc>)
    requires Lists(dag, sccs) && Counted(dag, counts, unplaced) && |dag.edges| < PLACED
    ensures Elems(rest) == unplaced && Distinct(rest)
    ensures forall a, b | 0 <= a < b < |rest| :: Rank(sccs, rest[a]) < Rank(sccs, rest[b])
  {
    rest := [];
    for i := 0 to |sccs|
      invariant forall a, b | 0 <= a < b < |rest| :: Rank(sccs, rest[a]) < Rank(sccs, rest[b])
      invariant forall a | 0 <= a < |rest| :: Rank(sccs, rest[a]) < i
      invariant Distinct(rest)
      invariant forall x :: x in rest <==> x in sccs[..i] && x in unplaced
    {
      var x := sccs[i];
      assert sccs[..i + 1] == sccs[..i] + [x];
      assert x in Elems(sccs);
      InEdgesBound(dag.edges, unplaced, x);
      RankAt(sccs, i);
      if counts[x] != PLACED {
        rest := rest + [x];
      }
    }
    assert sccs[..|sccs|] == sccs;
    forall x ensures x in Elems(rest) <==> x in unplaced {
      assert x in unplaced ==> x in Elems(sccs);
    }
  }

  /** After i full stages, i / n of the total weight is placed, unless everything is. */
  ghost predicate Progress(dag: Dag, weight: map<Scc, int>, unplaced: set<Scc>, i: int, n: int, total: int)
  {
    unplaced == {} || WeightOfSet(weight, dag.nodes - unplaced) * n >= i * total
  }

  lemma ProgressStep(dag: Dag, weight: map<Scc, int>, unplaced: set<Scc>, left: set<Scc>, stage: seq<Scc>, i: int, n: int, total: int)
    requires Progress(dag, weight, unplaced, i, n, total) && left <= unplaced <= dag.nodes && Elems(stage) == unplaced - left
    requires left == {} || WeightOfSet(weight, Elems(stage)) * n >= total
    ensures Progress(dag, weight, left, i + 1, n, total)
  {
    if left != {} {
      var x := Witness(left);
      assert x in unplaced;
      SplitWeight(weight, dag.nodes - left, unplaced - left);
      assert (dag.nodes - left) - (unplaced - left) == dag.nodes - unplaced by {
        assert forall x :: x in (dag.nodes - left) - (unplaced - left) <==> x in dag.nodes - unplaced;
      }
      var a, b := WeightOfSet(weight, dag.nodes - unplaced), WeightOfSet(weight, Elems(stage));
      assert (a + b) * n == a * n + b * n;
      assert (i + 1) * total == i * total + total;
    }
  }

  lemma DistinctJoin(a: seq<Scc>, b: seq<Scc>)
    requires Distinct(a) && Distinct(b) && Elems(a) !! Elems(b)
    ensures Distinct(a + b)
  {
    forall i, j | 0 <= i < |a| && 0 <= j < |b| ensures a[i] != b[j] {
      assert a[i] in Elems(a) && b[j] in Elems(b);
    }
  }

  /** In the last stage the leftovers add no weight. */
  lemma LastStageWeight(dag: Dag, weight: map<Scc, int>, unplaced: set<Scc>, left: set<Scc>, stage: seq<Scc>, rest: seq<Scc>, n: int, total: int)
    requires Progress(dag, weight, left, n, n, total) && left <= unplaced <= dag.nodes
    requires Elems(stage) == unplaced - left && Elems(rest) == left && Distinct(stage) && Distinct(rest)
    requires total == WeightOfSet(weight, dag.nodes) && n > 0 && forall x | x in weight :: weight[x] >= 0
    ensures Elems(stage + rest) == unplaced && Distinct(stage + rest)
    ensures WeightOfSet(weight, Elems(stage + rest)) == WeightOfSet(weight, Elems(stage))
    ensures forall x | x in rest :: Weight(weight, x) == 0
  {
    forall x ensures x in Elems(stage + rest) <==> x in unplaced {
      assert x in Elems(stage) <==> x in unplaced - left;
      assert x in Elems(rest) <==> x in left;
    }
    DistinctJoin(stage, rest);
    SplitWeight(weight, unplaced, left);
    if left == {} {
      assert WeightOfSet(weight, {}) == 0;
    } else {
      SplitWeight(weight, dag.nodes, left);
      NonNegativeWeight(weight, left);
      RestIsWeightless(WeightOfSet(weight, dag.nodes - left), WeightOfSet(weight, left), total, n);
    }
    forall x | x in rest ensures Weight(weight, x) == 0 {
      assert x in Elems(rest);
      SumRemove(left, x, WeightFn(weight));
      NonNegativeWeight(weight, left - {x});
    }
  }

  /** All stages one after the other. */
  ghost function Concat(stages: seq<seq<Scc>>): seq<Scc>
  {
    if stages == [] then [] else Concat(stages[..|stages| - 1]) + stages[|stages| - 1]
  }

  /** The stage reaches total / n with its last SCC and not before. */
  ghost predicate FullStage(weight: map<Scc, int>, stage: seq<Scc>, n: int, total: int)
  {
    WeightOfSet(weight, Elems(stage)) * n >= total && Short(weight, stage, n, total)
  }

  /** The stages list the SCCs in greedy order, and every stage is full but the last, which is when something is left. */
  ghost predicate Listing(dag: Dag, weight: map<Scc, int>, sccs: seq<Scc>, stages: seq<seq<Scc>>, unplaced: set<Scc>, n: int, total: int)
  {
    && Elems(Concat(stages)) == dag.nodes - unplaced && Greedy(dag, weight, sccs, Concat(stages))
    && forall k | 0 <= k < |stages| && (k < |stages| - 1 || unplaced != {}) :: FullStage(weight, stages[k], n, total)
  }

  lemma ListingNext(dag: Dag, weight: map<Scc, int>, sccs: seq<Scc>, stages: seq<seq<Scc>>, stage: seq<Scc>, unplaced: set<Scc>, left: set<Scc>,
                    n: int, total: int)
    requires Listing(dag, weight, sccs, stages, unplaced, n, total) && stage != []
    requires left <= unplaced <= dag.nodes && Elems(stage) == unplaced - left
    requires Greedy(dag, weight, sccs, Concat(stages) + stage) && (left != {} ==> FullStage(weight, stage, n, total))
    ensures Listing(dag, weight, sccs, stages + [stage], left, n, total)
  {
    var more := stages + [stage];
    ConcatMore(dag, stages, stage, unplaced, left);
    assert stage[0] in Elems(stage);
    forall k | 0 <= k < |more| && (k < |more| - 1 || left != {}) ensures FullStage(weight, more[k], n, total) {
      assert more[k] == if k < |stages| then stages[k] else stage;
    }
  }

  lemma ConcatMore(dag: Dag, stages: seq<seq<Scc>>, stage: seq<Scc>, unplaced: set<Scc>, left: set<Scc>)
    requires Elems(Concat(stages)) == dag.nodes - unplaced && left <= unplaced <= dag.nodes && Elems(stage) == unplaced - left
    ensures Concat(stages + [stage]) == Concat(stages) + stage && Elems(Concat(stages + [stage])) == dag.nodes - left
  {
    var more := stages + [stage];
    assert more[..|stages|] == stages;
    forall x ensures x in Elems(Concat(more)) <==> x in dag.nodes - left {
      assert x in Elems(Concat(stages)) <==> x in dag.nodes - unplaced;
      assert x in Elems(stage) <==> x in unplaced - left;
    }
  }

  lemma StartListing(dag: Dag, weight: map<Scc, int>, sccs: seq<Scc>, n: int, total: int)
    ensures Listing(dag, weight, sccs, [], dag.nodes, n, total)
  {
    assert Elems<Scc>([]) == dag.nodes - dag.nodes;
  }

  /** The last stage also takes what is left. */
  method TakeLeftovers(dag: Dag, sccs: seq<Scc>, weight: map<Scc, int>, n: int, total: int, counts: Counts, stage0: seq<Scc>,
                       ghost order: seq<Scc>, ghost unplaced: set<Scc>, ghost left: set<Scc>)
    returns (stage: seq<Scc>)
    requires Lists(dag, sccs) && Counted(dag, counts, left) && |dag.edges| < PLACED && left <= unplaced <= dag.nodes
    requires Elems(stage0) == unplaced - left && Distinct(stage0) && Elems(order) == dag.nodes - unplaced
    requires Progress(dag, weight, left, n, n, total) && total == WeightOfSet(weight, dag.nodes) && n > 0
    requires (forall x | x in weight :: weight[x] >= 0) && Greedy(dag, weight, sccs, order + stage0)
    ensures Elems(stage) == unplaced && Distinct(stage) && WeightOfSet(weight, Elems(stage)) == WeightOfSet(weight, Elems(stage0))
    ensures Greedy(dag, weight, sccs, order + stage)
  {
    var rest := Leftovers(dag, sccs, counts, left);
    LastStageWeight(dag, weight, unplaced, left, stage0, rest, n, total);
    forall x ensures x in Elems(rest) <==> x in dag.nodes - Elems(order + stage0) {
      assert x in Elems(order + stage0) <==> x in Elems(order) || x in Elems(stage0);
    }
    GreedyRest(dag, weight, sccs, order + stage0, rest);
    stage := stage0 + rest;
    assert order + stage == (order + stage0) + rest;
  }

  /** One round of the outer loop: fill a stage, the last one with everything that is left. */
  method NextStage(dag: Dag, sccs: seq<Scc>, weight: map<Scc, int>, i: int, n: int, total: int, counts0: Counts,
                   stages0: seq<seq<Scc>>, ghost unplaced: set<Scc>, ghost heaviest: int)
    returns (stages: seq<seq<Scc>>, counts: Counts, ghost left: set<Scc>)
    requires StrictOrder(dag) && EdgesInside(dag) && Lists(dag, sccs) && |dag.edges| < PLACED
    requires HeaviestIs(dag, weight, heaviest) && 0 <= i < n && total == WeightOfSet(weight, dag.nodes) >= 0
    requires Counted(dag, counts0, unplaced) && Downward(dag, unplaced)
    requires Built(dag, weight, stages0, unplaced, n, total, heaviest) && Progress(dag, weight, unplaced, i, n, total)
    requires Listing(dag, weight, sccs, stages0, unplaced, n, total)
    ensures Built(dag, weight, stages, left, n, total, heaviest) && |stages| <= |stages0| + 1
    ensures Listing(dag, weight, sccs, stages, left, n, total)
    ensures if i == n - 1 then left == {}
            else Counted(dag, counts, left) && Downward(dag, left) && Progress(dag, weight, left, i + 1, n, total)
  {
    var stage;
    ghost var order := Concat(stages0);
    stage, counts, left := FillStage(dag, sccs, weight, n, total, counts0, unplaced, order, heaviest);
    ProgressStep(dag, weight, unplaced, left, stage, i, n, total);
    if i == n - 1 {
      stage := TakeLeftovers(dag, sccs, weight, n, total, counts, stage, order, unplaced, left);
      left := {};
      assert unplaced - left == unplaced;
    }
    if stage != [] {
      PushStage(dag, weight, stages0, stage, unplaced, left, n, total, heaviest);
      ListingNext(dag, weight, sccs, stages0, stage, unplaced, left, n, total);
      stages := stages0 + [stage];
    } else {
      SkipStage(dag, weight, stages0, unplaced, left, n, total, heaviest);
      stages := stages0;
    }
  }

  /** The stages of the pipeline: a partition of the SCCs, with all dependences forward, in balance, greedily filled. */
  method PartitionStages(dag: Dag, sccs: seq<Scc>, weight: map<Scc, int>, threadBudget: int, ghost heaviest: int)
    returns (stages: seq<seq<Scc>>, numThread: int)
    requires dag.Valid() && Lists(dag, sccs) && |dag.edges| < PLACED
    requires HeaviestIs(dag, weight, heaviest) && threadBudget >= 1
    ensures numThread == (if threadBudget <= |sccs| then threadBudget else |sccs|) && |stages| <= numThread
    ensures Placed(stages) == dag.nodes && DisjointStages(stages) && ListedOnce(stages) && ForwardStages(dag, stages)
    ensures Balanced(weight, stages, numThread, WeightOfSet(weight, dag.nodes), heaviest)
    ensures Listing(dag, weight, sccs, stages, {}, numThread, WeightOfSet(weight, dag.nodes))
  {
    ValidIsStrictOrder(dag);
    numThread := if threadBudget <= |sccs| then threadBudget else |sccs|;
    var total := TotalWeight(sccs, weight);
    var counts := IncomingCounts(dag, sccs);
    ghost var unplaced := dag.nodes;
    NonNegativeWeight(weight, dag.nodes);
    stages := [];
    StartProgress(dag, weight, numThread, total, heaviest);
    StartListing(dag, weight, sccs, numThread, total);
    for i := 0 to numThread
      invariant |stages| <= i
      invariant i < numThread ==> Counted(dag, counts, unplaced) && Downward(dag, unplaced) && Progress(dag, weight, unplaced, i, numThread, total)
      invariant Built(dag, weight, stages, unplaced, numThread, total, heaviest)
      invariant Listing(dag, weight, sccs, stages, unplaced, numThread, total)
      invariant 0 < i == numThread ==> unplaced == {}
    {
      stages, counts, unplaced := NextStage(dag, sccs, weight, i, numThread, total, counts, stages, unplaced, heaviest);
    }
    if sccs == [] {
      assert Elems(sccs) == {};
    }
  }

  lemma StartProgress(dag: Dag, weight: map<Scc, int>, n: int, total: int, heaviest: int)
    ensures Built(dag, weight, [], dag.nodes, n, total, heaviest)
    ensures Progress(dag, weight, dag.nodes, 0, n, total)
  {
    assert dag.nodes - dag.nodes == {};
    assert Placed([]) == {};
  }
}
