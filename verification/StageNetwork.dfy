/** Which SCCs cannot share a stage, and the flow network whose cuts remove them. */
module StageNetwork {
  import opened FiniteSums
  import opened FlowNetwork
  import opened SccDag

  // ----- pivoting -----

  predicate BeforeSome(dag: Dag, x: Scc, pivots: seq<Scc>)
  {
    exists p | p in pivots :: dag.Before(x, p)
  }

  predicate AfterSome(dag: Dag, pivots: seq<Scc>, x: Scc)
  {
    exists p | p in pivots :: dag.Before(p, x)
  }

  /** Splits `all` into what must come before a pivot, what must come after one, and the rest. */
  method Pivot(dag: Dag, all: seq<Scc>, pivots: seq<Scc>)
    returns (before: seq<Scc>, after: seq<Scc>, flexible: seq<Scc>)
    ensures forall x :: x in before <==> x in all && BeforeSome(dag, x, pivots)
    ensures forall x :: x in after <==> x in all && !BeforeSome(dag, x, pivots) && AfterSome(dag, pivots, x)
    ensures forall x :: x in flexible <==> x in all && !BeforeSome(dag, x, pivots) && !AfterSome(dag, pivots, x)
    ensures multiset(before) + multiset(after) + multiset(flexible) == multiset(all)
  {
    before, after, flexible := [], [], [];
    for i := 0 to |all|
      invariant forall x :: x in before <==> x in all[..i] && BeforeSome(dag, x, pivots)
      invariant forall x :: x in after <==> x in all[..i] && !BeforeSome(dag, x, pivots) && AfterSome(dag, pivots, x)
      invariant forall x :: x in flexible <==> x in all[..i] && !BeforeSome(dag, x, pivots) && !AfterSome(dag, pivots, x)
      invariant multiset(before) + multiset(after) + multiset(flexible) == multiset(all[..i])
    {
      var x := all[i];
      assert all[..i + 1] == all[..i] + [x];
      if BeforeSome(dag, x, pivots) {
        before := before + [x];
      } else if AfterSome(dag, pivots, x) {
        after := after + [x];
      } else {
        flexible := flexible + [x];
      }
    }
    assert all[..|all|] == all;
  }

  // ----- the non-mergeability network -----

  function Left(x: Scc): Vertex { 0 + 2 * (x + 1) }
  function Right(x: Scc): Vertex { 1 + 2 * (x + 1) }

  function CostOf(weight: map<Scc, int>, x: Scc): int
  {
    1 + 100 * (if x in weight then weight[x] else 0)
  }

  ghost function Cost(weight: map<Scc, int>): Scc -> int
  {
    (x: Scc) => CostOf(weight, x)
  }

  ghost predicate WeightsFit(weight: map<Scc, int>, good: set<Scc>)
  {
    (forall x | x in weight :: weight[x] >= 0) && Sum(good, Cost(weight)) < INFINITE
  }

  ghost predicate SourceEdge(good: set<Scc>, u: Vertex, w: Vertex)
  {
    u == SOURCE && exists x :: x in good && w == Left(x)
  }

  ghost predicate SinkEdge(good: set<Scc>, u: Vertex, w: Vertex)
  {
    w == SINK && exists x :: x in good && u == Right(x)
  }

  type Relation = (Scc, Scc) -> bool

  ghost predicate PairEdge(nm: Relation, u: Vertex, w: Vertex)
  {
    exists x: Scc, y: Scc :: nm(x, y) && u == Left(x) && w == Right(y)
  }

  ghost predicate TerminalsWired(cap: EdgeWeights, x: Scc, c: int)
  {
    && (SOURCE, Left(x)) in cap && cap[(SOURCE, Left(x))] == c
    && (Right(x), SINK) in cap && cap[(Right(x), SINK)] == c
  }

  ghost predicate PairWired(cap: EdgeWeights, x: Scc, y: Scc)
  {
    (Left(x), Right(y)) in cap && cap[(Left(x), Right(y))] == INFINITE
  }

  ghost predicate KnownEdge(good: set<Scc>, nm: Relation, u: Vertex, w: Vertex)
  {
    SourceEdge(good, u, w) || SinkEdge(good, u, w) || PairEdge(nm, u, w)
  }

  /** One finite edge into each left vertex and out of each right vertex, and otherwise only pairs of `nm`. */
  ghost predicate Wiring(cap: EdgeWeights, good: set<Scc>, weight: map<Scc, int>, nm: Relation)
  {
    && (forall u: Vertex, w: Vertex {:trigger KnownEdge(good, nm, u, w)} | (u, w) in cap :: KnownEdge(good, nm, u, w))
    && (forall x {:trigger TerminalsWired(cap, x, CostOf(weight, x))} | x in good :: x >= 0 && TerminalsWired(cap, x, CostOf(weight, x)))
  }

  /** The finished network: a wiring with an infinite edge for every pair of `nm`. */
  ghost predicate Wired(cap: EdgeWeights, good: set<Scc>, weight: map<Scc, int>, nm: Relation)
  {
    Wiring(cap, good, weight, nm) && forall x, y | nm(x, y) :: x in good && y in good && PairWired(cap, x, y)
  }

  ghost predicate Matches(adj: Adjacencies, cap: EdgeWeights)
  {
    forall v: Vertex, w: Vertex :: (v, w) in cap <==> w in Neighbours(adj, v)
  }

  method AddEdge(adj0: Adjacencies, cap0: EdgeWeights, u: Vertex, w: Vertex, c: Word) returns (adj: Adjacencies, cap: EdgeWeights)
    requires Matches(adj0, cap0)
    ensures Matches(adj, cap)
    ensures cap == cap0[(u, w) := c]
  {
    adj := adj0[u := Neighbours(adj0, u) + [w]];
    cap := cap0[(u, w) := c];
  }

  lemma WireTerminals(cap: EdgeWeights, good: set<Scc>, weight: map<Scc, int>, nm: Relation, x: Scc, c: Word)
    requires Wiring(cap, good, weight, nm) && x >= 0 && c == CostOf(weight, x)
    ensures Wiring(cap[(SOURCE, Left(x)) := c][(Right(x), SINK) := c], good + {x}, weight, nm)
  {
    var cap' := cap[(SOURCE, Left(x)) := c][(Right(x), SINK) := c];
    forall u: Vertex, w: Vertex | (u, w) in cap' ensures KnownEdge(good + {x}, nm, u, w) {
      if (u, w) in cap {
        assert KnownEdge(good, nm, u, w);
      }
    }
    forall z | z in good + {x} ensures z >= 0 && TerminalsWired(cap', z, CostOf(weight, z)) {
      if z != x { assert TerminalsWired(cap, z, CostOf(weight, z)); }
    }
  }

  lemma WirePair(cap: EdgeWeights, good: set<Scc>, weight: map<Scc, int>, nm: Relation, x: Scc, y: Scc)
    requires Wiring(cap, good, weight, nm) && nm(x, y) && x in good && y in good
    ensures Wiring(cap[(Left(x), Right(y)) := INFINITE], good, weight, nm)
  {
    var cap' := cap[(Left(x), Right(y)) := INFINITE];
    forall u: Vertex, w: Vertex | (u, w) in cap' ensures KnownEdge(good, nm, u, w) {
      if (u, w) in cap {
        assert KnownEdge(good, nm, u, w);
      } else {
        assert nm(x, y) && u == Left(x) && w == Right(y);
      }
    }
    forall z | z in good ensures z >= 0 && TerminalsWired(cap', z, CostOf(weight, z)) {
      assert TerminalsWired(cap, z, CostOf(weight, z));
    }
  }

  lemma CostBound(weight: map<Scc, int>, good: set<Scc>, x: Scc)
    requires WeightsFit(weight, good) && x in good
    ensures 0 < CostOf(weight, x) < INFINITE
  {
    SumRemove(good, x, Cost(weight));
    SumLe(good - {x}, y => 0, Cost(weight));
    SumZero(good - {x}, (y: Scc) => 0);
  }

  method AddTerminalEdges(good: seq<Scc>, weight: map<Scc, int>, ghost nm: Relation) returns (adj: Adjacencies, cap: EdgeWeights)
    requires WeightsFit(weight, Elems(good)) && forall x | x in good :: x >= 0
    ensures Matches(adj, cap) && Wiring(cap, Elems(good), weight, nm)
  {
    adj, cap := map[], map[];
    for i := 0 to |good|
      invariant Matches(adj, cap) && Wiring(cap, Elems(good[..i]), weight, nm)
    {
      var x := good[i];
      assert Elems(good[..i + 1]) == Elems(good[..i]) + {x};
      CostBound(weight, Elems(good), x);
      WireTerminals(cap, Elems(good[..i]), weight, nm, x, CostOf(weight, x));
      adj, cap := AddEdge(adj, cap, SOURCE, Left(x), CostOf(weight, x));
      adj, cap := AddEdge(adj, cap, Right(x), SINK, CostOf(weight, x));
    }
    assert good[..|good|] == good;
  }

  ghost predicate AllWired(cap: EdgeWeights, A: seq<Scc>, B: seq<Scc>)
  {
    forall x, y {:trigger PairWired(cap, x, y)} | x in A && y in B :: PairWired(cap, x, y)
  }

  ghost predicate KeepsPairs(cap0: EdgeWeights, cap: EdgeWeights)
  {
    forall x, y {:trigger PairWired(cap, x, y)} | PairWired(cap0, x, y) :: PairWired(cap, x, y)
  }

  lemma PairAdded(cap0: EdgeWeights, cap: EdgeWeights, x: Scc, y: Scc, A: seq<Scc>, B: seq<Scc>, C: seq<Scc>, j: nat)
    requires KeepsPairs(cap0, cap) && AllWired(cap, A, B) && j < |C| && AllWired(cap, [x], C[..j]) && y == C[j]
    ensures var cap' := cap[(Left(x), Right(y)) := INFINITE];
            KeepsPairs(cap0, cap') && AllWired(cap', A, B) && AllWired(cap', [x], C[..j + 1])
  {
    assert C[..j + 1] == C[..j] + [y];
    var cap' := cap[(Left(x), Right(y)) := INFINITE];
    forall a, b | PairWired(cap, a, b) ensures PairWired(cap', a, b) {
    }
  }

  /** Marks every pair of A and B as non-mergeable. */
  method AddNonMergeable(A: seq<Scc>, B: seq<Scc>, adj0: Adjacencies, cap0: EdgeWeights,
                         ghost good: set<Scc>, ghost weight: map<Scc, int>, ghost nm: Relation)
    returns (adj: Adjacencies, cap: EdgeWeights)
    requires Matches(adj0, cap0) && Wiring(cap0, good, weight, nm)
    requires forall x, y | x in A && y in B :: nm(x, y) && x in good && y in good
    ensures Matches(adj, cap) && Wiring(cap, good, weight, nm)
    ensures KeepsPairs(cap0, cap) && AllWired(cap, A, B)
  {
    adj, cap := adj0, cap0;
    for i := 0 to |A|
      invariant Matches(adj, cap) && Wiring(cap, good, weight, nm)
      invariant KeepsPairs(cap0, cap) && AllWired(cap, A[..i], B)
    {
      for j := 0 to |B|
        invariant Matches(adj, cap) && Wiring(cap, good, weight, nm)
        invariant KeepsPairs(cap0, cap) && AllWired(cap, A[..i], B) && AllWired(cap, [A[i]], B[..j])
      {
        assert A[i] in A && B[j] in B;
        WirePair(cap, good, weight, nm, A[i], B[j]);
        PairAdded(cap0, cap, A[i], B[j], A[..i], B, B, j);
        adj, cap := AddEdge(adj, cap, Left(A[i]), Right(B[j]), INFINITE);
      }
      assert B[..|B|] == B;
      assert A[..i + 1] == A[..i] + [A[i]];
    }
    assert A[..|A|] == A;
  }

  // ----- the non-mergeable relation -----

  /** Rule 1: a path from x to y passes through a bad SCC. */
  ghost predicate JoinedThroughBad(dag: Dag, bad: set<Scc>, x: Scc, y: Scc)
  {
    exists b :: b in bad && dag.Before(x, b) && dag.Before(b, y)
  }

  /** Rule 2: x is at or before s, and y is at or after t, for an incompatible pair (s, t) of good SCCs. */
  ghost predicate JoinedThroughIncompatible(dag: Dag, good: set<Scc>, incompat: Relation, x: Scc, y: Scc)
  {
    exists s, t :: s in good && t in good && incompat(s, t) && dag.AtOrBefore(x, s) && dag.AtOrBefore(t, y)
  }

  ghost predicate NonMergeable(dag: Dag, good: set<Scc>, bad: set<Scc>, incompat: Relation, x: Scc, y: Scc)
  {
    && x in good
    && y in good
    && (JoinedThroughBad(dag, bad, x, y) || JoinedThroughIncompatible(dag, good, incompat, x, y))
  }

  ghost function NonMergeablePairs(dag: Dag, good: set<Scc>, bad: set<Scc>, incompat: Relation): Relation
  {
    (x, y) => NonMergeable(dag, good, bad, incompat, x, y)
  }

  /** Closed towards predecessors on the left and towards successors on the right. */
  lemma NonMergeableIsClosed(dag: Dag, good: set<Scc>, bad: set<Scc>, incompat: Relation, x': Scc, x: Scc, y: Scc, y': Scc)
    requires StrictOrder(dag) && NonMergeable(dag, good, bad, incompat, x, y)
    requires x' in good && y' in good && dag.AtOrBefore(x', x) && dag.AtOrBefore(y, y')
    ensures NonMergeable(dag, good, bad, incompat, x', y')
  {
    if JoinedThroughBad(dag, bad, x, y) {
      var b :| b in bad && dag.Before(x, b) && dag.Before(b, y);
      assert dag.Before(x', b) && dag.Before(b, y');
    } else {
      var s, t :| s in good && t in good && incompat(s, t) && dag.AtOrBefore(x, s) && dag.AtOrBefore(t, y);
      assert dag.AtOrBefore(x', s) && dag.AtOrBefore(t, y');
    }
  }

  ghost predicate Asymmetric(dag: Dag)
  {
    forall x, y | dag.Before(x, y) :: !dag.Before(y, x)
  }

  ghost predicate WiredAcross(dag: Dag, cap: EdgeWeights, good: set<Scc>, b: Scc)
  {
    forall x, y {:trigger PairWired(cap, x, y)} | x in good && y in good && dag.Before(x, b) && dag.Before(b, y) :: PairWired(cap, x, y)
  }

  ghost predicate WiredAround(dag: Dag, cap: EdgeWeights, good: set<Scc>, s: Scc, t: Scc)
  {
    forall x, y {:trigger PairWired(cap, x, y)} | x in good && y in good && dag.AtOrBefore(x, s) && dag.AtOrBefore(t, y) :: PairWired(cap, x, y)
  }

  /** Rule 1 for one bad SCC: what must precede it and what must follow it do not merge. */
  method WireBad(dag: Dag, good: seq<Scc>, b: Scc, adj0: Adjacencies, cap0: EdgeWeights,
                 ghost weight: map<Scc, int>, ghost nm: Relation)
    returns (adj: Adjacencies, cap: EdgeWeights)
    requires Matches(adj0, cap0) && Wiring(cap0, Elems(good), weight, nm)
    requires Asymmetric(dag)
    requires forall x, y {:trigger nm(x, y)} | x in good && y in good && dag.Before(x, b) && dag.Before(b, y) :: nm(x, y)
    ensures Matches(adj, cap) && Wiring(cap, Elems(good), weight, nm)
    ensures KeepsPairs(cap0, cap) && WiredAcross(dag, cap, Elems(good), b)
  {
    var A, B, _ := Pivot(dag, good, [b]);
    assert forall x :: BeforeSome(dag, x, [b]) <==> dag.Before(x, b);
    assert forall y :: AfterSome(dag, [b], y) <==> dag.Before(b, y);
    adj, cap := AddNonMergeable(A, B, adj0, cap0, Elems(good), weight, nm);
  }

  /** Rule 2 for one incompatible pair: s and what precedes it do not merge with t and what follows it. */
  method WireIncompatible(dag: Dag, good: seq<Scc>, s: Scc, t: Scc, adj0: Adjacencies, cap0: EdgeWeights,
                          ghost weight: map<Scc, int>, ghost nm: Relation)
    returns (adj: Adjacencies, cap: EdgeWeights)
    requires Matches(adj0, cap0) && Wiring(cap0, Elems(good), weight, nm)
    requires s in good && t in good && Asymmetric(dag)
    requires forall x, y {:trigger nm(x, y)} | x in good && y in good && dag.AtOrBefore(x, s) && dag.AtOrBefore(t, y) :: nm(x, y)
    ensures Matches(adj, cap) && Wiring(cap, Elems(good), weight, nm)
    ensures KeepsPairs(cap0, cap) && WiredAround(dag, cap, Elems(good), s, t)
  {
    var A, _, _ := Pivot(dag, good, [s]);
    assert forall x :: BeforeSome(dag, x, [s]) <==> dag.Before(x, s);
    A := A + [s];
    var _, B, _ := Pivot(dag, good, [t]);
    assert forall y :: BeforeSome(dag, y, [t]) <==> dag.Before(y, t);
    assert forall y :: AfterSome(dag, [t], y) <==> dag.Before(t, y);
    B := B + [t];
    adj, cap := AddNonMergeable(A, B, adj0, cap0, Elems(good), weight, nm);
  }

  /** Rule 1, for every bad SCC. */
  method WireAllBad(dag: Dag, good: seq<Scc>, bad: seq<Scc>, adj0: Adjacencies, cap0: EdgeWeights,
                    ghost weight: map<Scc, int>, ghost nm: Relation)
    returns (adj: Adjacencies, cap: EdgeWeights)
    requires Matches(adj0, cap0) && Wiring(cap0, Elems(good), weight, nm)
    requires Asymmetric(dag)
    requires forall x, y {:trigger nm(x, y)} | x in good && y in good && JoinedThroughBad(dag, Elems(bad), x, y) :: nm(x, y)
    ensures Matches(adj, cap) && Wiring(cap, Elems(good), weight, nm)
    ensures forall k | 0 <= k < |bad| :: WiredAcross(dag, cap, Elems(good), bad[k])
  {
    adj, cap := adj0, cap0;
    for i := 0 to |bad|
      invariant Matches(adj, cap) && Wiring(cap, Elems(good), weight, nm)
      invariant forall k | 0 <= k < i :: WiredAcross(dag, cap, Elems(good), bad[k])
    {
      ghost var was := cap;
      assert bad[i] in bad;
      adj, cap := WireBad(dag, good, bad[i], adj, cap, weight, nm);
      KeptAcross(dag, was, cap, Elems(good), bad[..i]);
    }
  }

  ghost predicate RowDone(dag: Dag, cap: EdgeWeights, good: seq<Scc>, incompat: Relation, s: Scc, n: int)
  {
    forall l {:trigger good[l]} | 0 <= l < |good| && l < n && incompat(s, good[l]) :: WiredAround(dag, cap, Elems(good), s, good[l])
  }

  /** Rule 2 for one good SCC against every good SCC that is incompatible with it. */
  method WireRow(dag: Dag, good: seq<Scc>, s: Scc, incompat: Relation, adj0: Adjacencies, cap0: EdgeWeights,
                 ghost weight: map<Scc, int>, ghost nm: Relation)
    returns (adj: Adjacencies, cap: EdgeWeights)
    requires Matches(adj0, cap0) && Wiring(cap0, Elems(good), weight, nm)
    requires s in good && Asymmetric(dag)
    requires forall x, y {:trigger nm(x, y)} | x in good && y in good && JoinedThroughIncompatible(dag, Elems(good), incompat, x, y) :: nm(x, y)
    ensures Matches(adj, cap) && Wiring(cap, Elems(good), weight, nm)
    ensures KeepsPairs(cap0, cap) && RowDone(dag, cap, good, incompat, s, |good|)
  {
    adj, cap := adj0, cap0;
    for j := 0 to |good|
      invariant Matches(adj, cap) && Wiring(cap, Elems(good), weight, nm)
      invariant KeepsPairs(cap0, cap) && RowDone(dag, cap, good, incompat, s, j)
    {
      if incompat(s, good[j]) {
        ghost var was := cap;
        assert good[j] in good;
        adj, cap := WireIncompatible(dag, good, s, good[j], adj, cap, weight, nm);
        KeptRow(dag, was, cap, good, incompat, s, j);
      }
    }
  }

  /** Rule 2, for every ordered pair of good SCCs that is incompatible. */
  method WireAllIncompatible(dag: Dag, good: seq<Scc>, incompat: Relation, adj0: Adjacencies, cap0: EdgeWeights,
                             ghost weight: map<Scc, int>, ghost nm: Relation)
    returns (adj: Adjacencies, cap: EdgeWeights)
    requires Matches(adj0, cap0) && Wiring(cap0, Elems(good), weight, nm)
    requires Asymmetric(dag)
    requires forall x, y {:trigger nm(x, y)} | x in good && y in good && JoinedThroughIncompatible(dag, Elems(good), incompat, x, y) :: nm(x, y)
    ensures Matches(adj, cap) && Wiring(cap, Elems(good), weight, nm)
    ensures KeepsPairs(cap0, cap) && forall k | 0 <= k < |good| :: RowDone(dag, cap, good, incompat, good[k], |good|)
  {
    adj, cap := adj0, cap0;
    for i := 0 to |good|
      invariant Matches(adj, cap) && Wiring(cap, Elems(good), weight, nm)
      invariant KeepsPairs(cap0, cap) && forall k | 0 <= k < i :: RowDone(dag, cap, good, incompat, good[k], |good|)
    {
      ghost var was := cap;
      assert good[i] in good;
      adj, cap := WireRow(dag, good, good[i], incompat, adj, cap, weight, nm);
      forall k | 0 <= k < i ensures RowDone(dag, cap, good, incompat, good[k], |good|) {
        KeptRow(dag, was, cap, good, incompat, good[k], |good|);
      }
    }
  }

  lemma PairsGenerated(dag: Dag, good: set<Scc>, bad: set<Scc>, incompat: Relation)
    requires StrictOrder(dag)
    ensures var nm := NonMergeablePairs(dag, good, bad, incompat);
            && (forall x, y {:trigger nm(x, y)} | x in good && y in good && JoinedThroughBad(dag, bad, x, y) :: nm(x, y))
            && (forall x, y {:trigger nm(x, y)} | x in good && y in good && JoinedThroughIncompatible(dag, good, incompat, x, y) :: nm(x, y))
            && Asymmetric(dag)
  {
  }

  /** All infinite edges, by both rules. */
  method WireNonMergeable(dag: Dag, good: seq<Scc>, bad: seq<Scc>, incompat: Relation, adj0: Adjacencies, cap0: EdgeWeights,
                          ghost weight: map<Scc, int>)
    returns (adj: Adjacencies, cap: EdgeWeights)
    requires StrictOrder(dag) && Matches(adj0, cap0)
    requires Wiring(cap0, Elems(good), weight, NonMergeablePairs(dag, Elems(good), Elems(bad), incompat))
    ensures Matches(adj, cap)
    ensures Wired(cap, Elems(good), weight, NonMergeablePairs(dag, Elems(good), Elems(bad), incompat))
  {
    ghost var nm := NonMergeablePairs(dag, Elems(good), Elems(bad), incompat);
    PairsGenerated(dag, Elems(good), Elems(bad), incompat);
    adj, cap := WireAllBad(dag, good, bad, adj0, cap0, weight, nm);
    ghost var was := cap;
    adj, cap := WireAllIncompatible(dag, good, incompat, adj, cap, weight, nm);
    KeptAcross(dag, was, cap, Elems(good), bad);
    AllPairsWired(dag, cap, good, bad, incompat);
  }

  lemma AllPairsWired(dag: Dag, cap: EdgeWeights, good: seq<Scc>, bad: seq<Scc>, incompat: Relation)
    requires forall k | 0 <= k < |bad| :: WiredAcross(dag, cap, Elems(good), bad[k])
    requires forall k | 0 <= k < |good| :: RowDone(dag, cap, good, incompat, good[k], |good|)
    ensures forall x, y | NonMergeablePairs(dag, Elems(good), Elems(bad), incompat)(x, y) ::
              x in Elems(good) && y in Elems(good) && PairWired(cap, x, y)
  {
    forall x, y | NonMergeable(dag, Elems(good), Elems(bad), incompat, x, y) ensures PairWired(cap, x, y) {
      if b :| b in Elems(bad) && dag.Before(x, b) && dag.Before(b, y) {
        var k :| 0 <= k < |bad| && bad[k] == b;
        assert WiredAcross(dag, cap, Elems(good), bad[k]);
      } else {
        var s, t :| s in Elems(good) && t in Elems(good) && incompat(s, t) && dag.AtOrBefore(x, s) && dag.AtOrBefore(t, y);
        var k :| 0 <= k < |good| && good[k] == s;
        var l :| 0 <= l < |good| && good[l] == t;
        assert RowDone(dag, cap, good, incompat, good[k], |good|);
      }
    }
  }

  lemma KeptAcross(dag: Dag, was: EdgeWeights, cap: EdgeWeights, good: set<Scc>, bs: seq<Scc>)
    requires KeepsPairs(was, cap) && forall k | 0 <= k < |bs| :: WiredAcross(dag, was, good, bs[k])
    ensures forall k | 0 <= k < |bs| :: WiredAcross(dag, cap, good, bs[k])
  {
  }

  lemma KeptRow(dag: Dag, was: EdgeWeights, cap: EdgeWeights, good: seq<Scc>, incompat: Relation, s: Scc, n: int)
    requires KeepsPairs(was, cap) && RowDone(dag, was, good, incompat, s, n)
    ensures RowDone(dag, cap, good, incompat, s, n)
  {
  }

  // ----- the shape of the finished network -----

  lemma EdgeShape(cap: EdgeWeights, good: set<Scc>, weight: map<Scc, int>, nm: Relation, u: Vertex, w: Vertex)
    requires Wired(cap, good, weight, nm) && (u, w) in cap
    ensures (u == SOURCE && exists x :: x in good && x >= 0 && w == Left(x))
         || (w == SINK && exists x :: x in good && x >= 0 && u == Right(x))
         || (exists x, y :: nm(x, y) && x >= 0 && y >= 0 && u == Left(x) && w == Right(y))
  {
    assert KnownEdge(good, nm, u, w);
    assert forall x | x in good :: TerminalsWired(cap, x, CostOf(weight, x));
    assert forall x, y | nm(x, y) :: x in good && y in good;
  }

  lemma WiredIsOneWay(cap: EdgeWeights, good: set<Scc>, weight: map<Scc, int>, nm: Relation)
    requires Wired(cap, good, weight, nm)
    ensures OneWay(cap) && forall u: Vertex, w: Vertex | (u, w) in cap :: u != SINK && w != SOURCE
  {
    forall u: Vertex, w: Vertex | (u, w) in cap ensures u != w && (w, u) !in cap && u != SINK && w != SOURCE {
      EdgeShape(cap, good, weight, nm, u, w);
      if (w, u) in cap {
        EdgeShape(cap, good, weight, nm, w, u);
      }
    }
  }

  function SccOf(v: Vertex): Scc { v / 2 - 1 }

  lemma SourceEdgeOf(cap: EdgeWeights, good: set<Scc>, weight: map<Scc, int>, nm: Relation, e: Edge)
    requires Wired(cap, good, weight, nm) && e in cap && e.0 == SOURCE
    ensures SccOf(e.1) in good && e.1 == Left(SccOf(e.1)) && cap[e] == CostOf(weight, SccOf(e.1))
  {
    EdgeShape(cap, good, weight, nm, e.0, e.1);
    var x :| x in good && e.1 == Left(x);
    assert TerminalsWired(cap, x, CostOf(weight, x));
    assert SccOf(e.1) == x;
  }

  lemma SinkEdgeOf(cap: EdgeWeights, good: set<Scc>, weight: map<Scc, int>, nm: Relation, e: Edge)
    requires Wired(cap, good, weight, nm) && e in cap && e.1 == SINK
    ensures SccOf(e.0) in good && e.0 == Right(SccOf(e.0)) && cap[e] == CostOf(weight, SccOf(e.0))
  {
    EdgeShape(cap, good, weight, nm, e.0, e.1);
    var x :| x in good && e.0 == Right(x);
    assert TerminalsWired(cap, x, CostOf(weight, x));
    assert SccOf(e.0) == x;
  }

  /** A set of source edges into SCCs of X costs at most X. */
  lemma SourceEdgesCost(cap: EdgeWeights, good: set<Scc>, weight: map<Scc, int>, nm: Relation, E: set<Edge>, X: set<Scc>, f: Edge -> int)
    requires Wired(cap, good, weight, nm) && forall x | x in weight :: weight[x] >= 0
    requires forall e | e in E :: e in cap && e.0 == SOURCE && SccOf(e.1) in X && f(e) == cap[e]
    ensures Sum(E, f) <= Sum(X, Cost(weight))
  {
    forall e | e in E ensures e == (SOURCE, Left(SccOf(e.1))) && f(e) == Cost(weight)(SccOf(e.1)) {
      SourceEdgeOf(cap, good, weight, nm, e);
    }
    SumImage(E, X, (e: Edge) => SccOf(e.1), f, Cost(weight));
  }

  lemma SinkEdgesCost(cap: EdgeWeights, good: set<Scc>, weight: map<Scc, int>, nm: Relation, E: set<Edge>, X: set<Scc>, f: Edge -> int)
    requires Wired(cap, good, weight, nm) && forall x | x in weight :: weight[x] >= 0
    requires forall e | e in E :: e in cap && e.1 == SINK && SccOf(e.0) in X && f(e) == cap[e]
    ensures Sum(E, f) <= Sum(X, Cost(weight))
  {
    forall e | e in E ensures e == (Right(SccOf(e.0)), SINK) && f(e) == Cost(weight)(SccOf(e.0)) {
      SinkEdgeOf(cap, good, weight, nm, e);
    }
    SumImage(E, X, (e: Edge) => SccOf(e.0), f, Cost(weight));
  }

  /** The source edges of the network cost no more than all good SCCs together. */
  lemma SourceCapacityFits(cap: EdgeWeights, good: set<Scc>, weight: map<Scc, int>, nm: Relation)
    requires Wired(cap, good, weight, nm) && WeightsFit(weight, good)
    ensures CutCapacity(cap, {SOURCE}) < WORD
    ensures forall e | e in cap && e.0 == SOURCE :: cap[e] < INFINITE
  {
    forall e | e in cap && e.0 == SOURCE ensures cap[e] < INFINITE && SccOf(e.1) in good && e.1 != SOURCE {
      SourceEdgeOf(cap, good, weight, nm, e);
      CostBound(weight, good, SccOf(e.1));
      WiredIsOneWay(cap, good, weight, nm);
    }
    var E := set e | e in cap && e.0 == SOURCE;
    var f := CutTerm(cap, {SOURCE});
    SumDisjoint(E, cap.Keys - E, f);
    assert E + (cap.Keys - E) == cap.Keys;
    SumZero(cap.Keys - E, f);
    SourceEdgesCost(cap, good, weight, nm, E, good, f);
  }

  lemma WiredIsNetwork(adj: Adjacencies, cap: EdgeWeights, good: set<Scc>, weight: map<Scc, int>, nm: Relation)
    requires Matches(adj, cap) && Wired(cap, good, weight, nm) && WeightsFit(weight, good)
    ensures Network(adj, cap)
  {
    WiredIsOneWay(cap, good, weight, nm);
    SourceCapacityFits(cap, good, weight, nm);
  }
}
