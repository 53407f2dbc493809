/**
 * Flow networks as the graph library stores them: adjacency lists, and maps from
 * edges to 64-bit weights in which the all-ones word stands for infinity.
 */
module FlowNetwork {
  import opened FiniteSums

  type Vertex = int
  type Edge = (Vertex, Vertex)
  type Adjacencies = map<Vertex, seq<Vertex>>
  type EdgeWeights = map<Edge, Word>

  const WORD: nat := 0x1_0000_0000_0000_0000
  type Word = x: nat | x < WORD
  const INFINITE: Word := WORD - 1
  const SOURCE: Vertex := 0
  const SINK: Vertex := 1

  // 64-bit addition and subtraction wrap around.
  function WordAdd(a: Word, b: Word): Word { if a + b < WORD then a + b else a + b - WORD }
  function WordSub(a: Word, b: Word): Word { if b <= a then a - b else a - b + WORD }

  function Neighbours(adj: Adjacencies, v: Vertex): seq<Vertex>
  {
    if v in adj then adj[v] else []
  }

  function WeightOf(w: EdgeWeights, e: Edge): Word
  {
    if e in w then w[e] else 0
  }

  /** No self-loops and no antiparallel edges. */
  ghost predicate OneWay(cap: EdgeWeights)
  {
    forall u: Vertex, w: Vertex | (u, w) in cap :: u != w && (w, u) !in cap
  }

  /** The adjacency lists hold exactly the edges, and none leaves the sink. Lists may repeat a vertex. */
  ghost predicate Adjacent(adj: Adjacencies, cap: EdgeWeights)
  {
    && (forall v: Vertex, w: Vertex :: (v, w) in cap <==> w in Neighbours(adj, v))
    && OneWay(cap)
    && (forall u: Vertex, w: Vertex | (u, w) in cap :: u != SINK)
  }

  /** What the flow code expects of its input. */
  ghost predicate Network(adj: Adjacencies, cap: EdgeWeights)
  {
    && Adjacent(adj, cap)
    && (forall e | e in cap && e.0 == SOURCE :: cap[e] < INFINITE)
    && CutCapacity(cap, {SOURCE}) < WORD
  }

  ghost predicate CoversVertices(cap: EdgeWeights, V: set<Vertex>)
  {
    SOURCE in V && SINK in V && forall u: Vertex, w: Vertex | (u, w) in cap :: u in V && w in V
  }

  lemma AnyVertices(cap: EdgeWeights) returns (V: set<Vertex>)
    ensures CoversVertices(cap, V)
  {
    V := VerticesOf(cap);
    VerticesCover(cap);
  }

  ghost function VerticesOf(cap: EdgeWeights): set<Vertex>
  {
    {SOURCE, SINK} + (set e | e in cap :: e.0) + (set e | e in cap :: e.1)
  }

  lemma VerticesCover(cap: EdgeWeights)
    ensures CoversVertices(cap, VerticesOf(cap))
  {
    forall u: Vertex, w: Vertex | (u, w) in cap ensures u in VerticesOf(cap) && w in VerticesOf(cap) {
      assert (u, w).0 == u && (u, w).1 == w;
    }
  }

  // ----- cuts -----

  ghost function CutTerm(cap: EdgeWeights, S: set<Vertex>): Edge -> int
  {
    (e: Edge) => if e.0 in S && e.1 !in S then WeightOf(cap, e) else 0
  }

  /** Total capacity of the edges that leave S. */
  ghost function CutCapacity(cap: EdgeWeights, S: set<Vertex>): int
  {
    Sum(cap.Keys, CutTerm(cap, S))
  }

  ghost predicate IsCut(S: set<Vertex>)
  {
    SOURCE in S && SINK !in S
  }

  ghost function NetTerm(flow: EdgeWeights, S: set<Vertex>): Edge -> int
  {
    (e: Edge) =>
      if e.0 in S && e.1 !in S then WeightOf(flow, e)
      else if e.0 !in S && e.1 in S then 0 - WeightOf(flow, e)
      else 0
  }

  /** Flow leaving S minus flow entering S, over the edges of the network only. */
  ghost function NetOut(cap: EdgeWeights, flow: EdgeWeights, S: set<Vertex>): int
  {
    Sum(cap.Keys, NetTerm(flow, S))
  }

  ghost function Signed(amount: int, from: Vertex, to: Vertex, S: set<Vertex>): int
  {
    (if from in S then amount else 0) - (if to in S then amount else 0)
  }

  /** Every vertex set passes on exactly what it takes in, `total` at the two terminals apart.
      With a one-vertex set this is conservation at that vertex. */
  ghost predicate Conserves(cap: EdgeWeights, flow: EdgeWeights, total: nat)
  {
    forall S: set<Vertex> :: NetOut(cap, flow, S) == Signed(total, SOURCE, SINK, S)
  }

  ghost predicate WithinCapacity(cap: EdgeWeights, flow: EdgeWeights, total: nat)
  {
    forall e | e in cap :: WeightOf(flow, e) <= cap[e] && WeightOf(flow, e) <= total
  }

  /** `flow` is a flow of value `total`; entries of `flow` off the network are free. */
  ghost predicate Feasible(cap: EdgeWeights, flow: EdgeWeights, total: nat)
  {
    WithinCapacity(cap, flow, total) && Conserves(cap, flow, total)
  }

  // ----- residual graph -----

  function Residual(cap: EdgeWeights, flow: EdgeWeights, u: Vertex, w: Vertex): Word
  {
    if (u, w) in cap then
      if cap[(u, w)] == INFINITE then INFINITE else WordSub(cap[(u, w)], WeightOf(flow, (u, w)))
    else if (w, u) in cap then WeightOf(flow, (w, u))
    else 0
  }

  /** `p` leads from the source to v along edges with residual capacity. */
  ghost predicate ResidualPath(cap: EdgeWeights, flow: EdgeWeights, p: seq<Vertex>, v: Vertex)
  {
    && p != []
    && p[|p| - 1] == v
    && if |p| == 1 then v == SOURCE
       else Residual(cap, flow, p[|p| - 2], v) > 0 && ResidualPath(cap, flow, p[..|p| - 1], p[|p| - 2])
  }

  ghost predicate Reachable(cap: EdgeWeights, flow: EdgeWeights, v: Vertex)
  {
    exists p :: ResidualPath(cap, flow, p, v)
  }

  ghost predicate Closed(cap: EdgeWeights, flow: EdgeWeights, S: set<Vertex>)
  {
    forall u, w | u in S && Residual(cap, flow, u, w) > 0 :: w in S
  }

  function Min(a: Word, b: Word): Word { if a <= b then a else b }

  /** The least residual capacity along a path. */
  ghost function Bottleneck(cap: EdgeWeights, flow: EdgeWeights, p: seq<Vertex>): Word
  {
    if |p| < 2 then INFINITE
    else Min(Bottleneck(cap, flow, p[..|p| - 1]), Residual(cap, flow, p[|p| - 2], p[|p| - 1]))
  }

  /** A residual path never leaves a closed set. */
  lemma {:induction false} ClosedSetHoldsPath(cap: EdgeWeights, flow: EdgeWeights, S: set<Vertex>, p: seq<Vertex>, v: Vertex)
    requires Closed(cap, flow, S) && SOURCE in S && ResidualPath(cap, flow, p, v)
    ensures v in S
    decreases |p|
  {
    if |p| > 1 {
      ClosedSetHoldsPath(cap, flow, S, p[..|p| - 1], p[|p| - 2]);
    }
  }

  lemma BlockedSink(cap: EdgeWeights, flow: EdgeWeights, S: set<Vertex>)
    requires Closed(cap, flow, S) && IsCut(S)
    ensures !Reachable(cap, flow, SINK)
  {
    if p :| ResidualPath(cap, flow, p, SINK) {
      ClosedSetHoldsPath(cap, flow, S, p, SINK);
    }
  }

  // ----- max-flow and min-cut -----

  /** Weak duality: no flow is larger than any cut. */
  lemma FlowBelowCut(cap: EdgeWeights, flow: EdgeWeights, total: nat, S: set<Vertex>)
    requires Feasible(cap, flow, total) && IsCut(S)
    ensures total <= CutCapacity(cap, S)
  {
    assert NetOut(cap, flow, S) == Signed(total, SOURCE, SINK, S);
    SumLe(cap.Keys, NetTerm(flow, S), CutTerm(cap, S));
  }

  /** An edge leaving a closed set is saturated and finite; an edge entering it is empty. */
  lemma ClosedSetBoundary(cap: EdgeWeights, flow: EdgeWeights, total: nat, S: set<Vertex>, e: Edge)
    requires Feasible(cap, flow, total) && Closed(cap, flow, S) && e in cap
    requires OneWay(cap)
    ensures e.0 in S && e.1 !in S ==> WeightOf(flow, e) == cap[e] && cap[e] != INFINITE
    ensures e.0 !in S && e.1 in S ==> WeightOf(flow, e) == 0
  {
    if e.0 in S && e.1 !in S {
      assert e == (e.0, e.1);
      assert Residual(cap, flow, e.0, e.1) == 0;
    }
    if e.0 !in S && e.1 in S {
      assert e == (e.0, e.1);
      assert Residual(cap, flow, e.1, e.0) == 0;
    }
  }

  /** Strong duality: a closed cut carries exactly the flow, so it is a least cut. */
  lemma ClosedCutIsMinimum(cap: EdgeWeights, flow: EdgeWeights, total: nat, S: set<Vertex>)
    requires Feasible(cap, flow, total) && Closed(cap, flow, S) && IsCut(S)
    requires OneWay(cap)
    ensures total == CutCapacity(cap, S)
    ensures forall T | IsCut(T) :: CutCapacity(cap, S) <= CutCapacity(cap, T)
  {
    forall e | e in cap.Keys
      ensures NetTerm(flow, S)(e) == CutTerm(cap, S)(e)
    {
      ClosedSetBoundary(cap, flow, total, S, e);
    }
    SumSame(cap.Keys, NetTerm(flow, S), CutTerm(cap, S));
    assert NetOut(cap, flow, S) == Signed(total, SOURCE, SINK, S);
    forall T | IsCut(T) ensures CutCapacity(cap, S) <= CutCapacity(cap, T) {
      FlowBelowCut(cap, flow, total, T);
    }
  }

  /** The zero flow. */
  lemma NoFlow(cap: EdgeWeights)
    ensures Feasible(cap, map[], 0)
  {
    forall S: set<Vertex> ensures NetOut(cap, map[], S) == Signed(0, SOURCE, SINK, S) {
      SumZero(cap.Keys, NetTerm(map[], S));
    }
  }

  /** `after` differs from `before`, on the network, by `d` more units sent from u to w:
      on the edge u->w if it is there, else by cancelling flow on w->u. */
  ghost predicate Pushed(cap: EdgeWeights, before: EdgeWeights, after: EdgeWeights, u: Vertex, w: Vertex, d: nat)
  {
    && (forall e | e in cap && e != (u, w) && e != (w, u) :: WeightOf(after, e) == WeightOf(before, e))
    && ((u, w) in cap ==> WeightOf(after, (u, w)) == WeightOf(before, (u, w)) + d)
    && ((w, u) in cap ==> WeightOf(after, (w, u)) == WeightOf(before, (w, u)) - d)
  }

  lemma PushedNet(cap: EdgeWeights, before: EdgeWeights, after: EdgeWeights, u: Vertex, w: Vertex, d: nat, S: set<Vertex>)
    requires Pushed(cap, before, after, u, w, d)
    requires u != w && ((u, w) in cap || (w, u) in cap) && !((u, w) in cap && (w, u) in cap)
    ensures NetOut(cap, after, S) == NetOut(cap, before, S) + Signed(d, u, w, S)
  {
    var e := if (u, w) in cap then (u, w) else (w, u);
    SumUpdate(cap.Keys, e, NetTerm(before, S), NetTerm(after, S));
  }

  /** Conservation in its usual form: inner vertices balance, and `total` is the net outflow of the source. */
  lemma VertexBalance(cap: EdgeWeights, flow: EdgeWeights, total: nat, v: Vertex)
    requires Feasible(cap, flow, total)
    ensures v != SOURCE && v != SINK ==> NetOut(cap, flow, {v}) == 0
    ensures NetOut(cap, flow, {SOURCE}) == total
    ensures NetOut(cap, flow, {SINK}) == 0 - total
  {
    assert NetOut(cap, flow, {v}) == Signed(total, SOURCE, SINK, {v});
    assert NetOut(cap, flow, {SOURCE}) == Signed(total, SOURCE, SINK, {SOURCE});
    assert NetOut(cap, flow, {SINK}) == Signed(total, SOURCE, SINK, {SINK});
  }

  /** At an inner vertex, flow in along one edge goes out along some edge. */
  lemma FlowGoesOn(cap: EdgeWeights, flow: EdgeWeights, total: nat, e: Edge) returns (o: Edge)
    requires Feasible(cap, flow, total) && e in cap && WeightOf(flow, e) > 0
    requires e.0 != e.1 && e.1 != SOURCE && e.1 != SINK
    ensures o in cap && o.0 == e.1 && WeightOf(flow, o) > 0
  {
    var v := e.1;
    VertexBalance(cap, flow, total, v);
    if forall o | o in cap && o.0 == v :: WeightOf(flow, o) == 0 {
      SumRemove(cap.Keys, e, NetTerm(flow, {v}));
      SumLe(cap.Keys - {e}, NetTerm(flow, {v}), x => 0);
      SumZero(cap.Keys - {e}, (x: Edge) => 0);
      assert false;
    }
    o :| o in cap && o.0 == v && WeightOf(flow, o) > 0;
  }

  /** At an inner vertex, flow out along one edge came in along some edge. */
  lemma FlowComesFrom(cap: EdgeWeights, flow: EdgeWeights, total: nat, e: Edge) returns (i: Edge)
    requires Feasible(cap, flow, total) && e in cap && WeightOf(flow, e) > 0
    requires e.0 != e.1 && e.0 != SOURCE && e.0 != SINK
    ensures i in cap && i.1 == e.0 && WeightOf(flow, i) > 0
  {
    var v := e.0;
    VertexBalance(cap, flow, total, v);
    if forall i | i in cap && i.1 == v :: WeightOf(flow, i) == 0 {
      SumRemove(cap.Keys, e, NetTerm(flow, {v}));
      SumLe(cap.Keys - {e}, x => 0, NetTerm(flow, {v}));
      SumZero(cap.Keys - {e}, (x: Edge) => 0);
      assert false;
    }
    i :| i in cap && i.1 == v && WeightOf(flow, i) > 0;
  }
}
