/** Why shortest augmenting paths are few: lengths never shrink, and every augmentation takes an edge off all the
    shortest paths. */
module AugmentingPaths {
  import opened FiniteSums
  import opened FlowNetwork

  /** p goes directly from u to w. */
  ghost predicate StepOf(p: seq<Vertex>, u: Vertex, w: Vertex)
  {
    |p| >= 2 && ((p[|p| - 2] == u && p[|p| - 1] == w) || StepOf(p[..|p| - 1], u, w))
  }

  /** Along a residual edge the height rises by at most one. */
  ghost predicate Climbs(cap: EdgeWeights, flow: EdgeWeights, height: Vertex -> int)
  {
    height(SOURCE) == 1 && forall u, w | Residual(cap, flow, u, w) > 0 :: height(w) <= height(u) + 1
  }

  /** Along p it rises by one at every step. */
  ghost predicate Steep(height: Vertex -> int, p: seq<Vertex>)
  {
    forall u, w | StepOf(p, u, w) :: height(w) == height(u) + 1
  }

  lemma {:induction false} PathIsLong(cap: EdgeWeights, flow: EdgeWeights, height: Vertex -> int, p: seq<Vertex>, v: Vertex)
    requires Climbs(cap, flow, height) && ResidualPath(cap, flow, p, v)
    ensures |p| >= height(v)
    decreases |p|
  {
    if |p| > 1 {
      PathIsLong(cap, flow, height, p[..|p| - 1], p[|p| - 2]);
    }
  }

  lemma {:induction false} StepIsResidual(cap: EdgeWeights, flow: EdgeWeights, p: seq<Vertex>, v: Vertex, x: Vertex, y: Vertex)
    requires ResidualPath(cap, flow, p, v) && StepOf(p, x, y)
    ensures Residual(cap, flow, x, y) > 0
    decreases |p|
  {
    if !(p[|p| - 2] == x && p[|p| - 1] == y) {
      StepIsResidual(cap, flow, p[..|p| - 1], p[|p| - 2], x, y);
    }
  }

  // ----- one augmentation -----

  /** Residual capacity appears only against the direction of `path`. */
  ghost predicate Rerouted(cap: EdgeWeights, before: EdgeWeights, after: EdgeWeights, path: seq<Vertex>)
  {
    forall u, w | Residual(cap, after, u, w) > 0 :: Residual(cap, before, u, w) > 0 || StepOf(path, w, u)
  }

  ghost predicate Saturated(cap: EdgeWeights, after: EdgeWeights, path: seq<Vertex>, u: Vertex, w: Vertex)
  {
    StepOf(path, u, w) && Residual(cap, after, u, w) == 0
  }

  lemma StillClimbs(cap: EdgeWeights, before: EdgeWeights, after: EdgeWeights, height: Vertex -> int, path: seq<Vertex>)
    requires Climbs(cap, before, height) && Steep(height, path) && Rerouted(cap, before, after, path)
    ensures Climbs(cap, after, height)
  {
  }

  /** A path that is as short as the heights allow uses no residual capacity that the augmentation created. */
  lemma {:induction false} TightPath(cap: EdgeWeights, before: EdgeWeights, after: EdgeWeights, height: Vertex -> int,
                                     path: seq<Vertex>, p: seq<Vertex>, v: Vertex)
    requires Climbs(cap, before, height) && Steep(height, path) && Rerouted(cap, before, after, path)
    requires ResidualPath(cap, after, p, v) && |p| == height(v)
    ensures ResidualPath(cap, before, p, v) && Steep(height, p)
    decreases |p|
  {
    if |p| > 1 {
      var q, u := p[..|p| - 1], p[|p| - 2];
      StillClimbs(cap, before, after, height, path);
      PathIsLong(cap, after, height, q, u);
      TightPath(cap, before, after, height, path, q, u);
      assert height(v) == height(u) + 1;
      assert !StepOf(path, v, u);
    }
  }

  /** e lies, in one direction or the other, on a residual path of n vertices to the sink. */
  ghost predicate ShortEdge(cap: EdgeWeights, flow: EdgeWeights, n: int, e: Edge)
  {
    exists p :: ResidualPath(cap, flow, p, SINK) && |p| == n && (StepOf(p, e.0, e.1) || StepOf(p, e.1, e.0))
  }

  ghost function ShortEdges(cap: EdgeWeights, flow: EdgeWeights, n: int): set<Edge>
  {
    set e | e in cap && ShortEdge(cap, flow, n, e)
  }

  lemma ShortEdgeStays(cap: EdgeWeights, before: EdgeWeights, after: EdgeWeights, height: Vertex -> int, path: seq<Vertex>, e: Edge)
    requires Climbs(cap, before, height) && Steep(height, path) && Rerouted(cap, before, after, path) && height(SINK) == |path|
    requires ShortEdge(cap, after, |path|, e)
    ensures ShortEdge(cap, before, |path|, e)
    ensures (Residual(cap, after, e.0, e.1) > 0 && height(e.1) == height(e.0) + 1)
         || (Residual(cap, after, e.1, e.0) > 0 && height(e.0) == height(e.1) + 1)
  {
    var p :| ResidualPath(cap, after, p, SINK) && |p| == |path| && (StepOf(p, e.0, e.1) || StepOf(p, e.1, e.0));
    TightPath(cap, before, after, height, path, p, SINK);
    if StepOf(p, e.0, e.1) {
      StepIsResidual(cap, after, p, SINK, e.0, e.1);
    } else {
      StepIsResidual(cap, after, p, SINK, e.1, e.0);
    }
  }

  /** The edge that the augmentation saturates is on no shortest path any more. */
  lemma SaturatedDropsOut(cap: EdgeWeights, before: EdgeWeights, after: EdgeWeights, height: Vertex -> int,
                          path: seq<Vertex>, u: Vertex, w: Vertex) returns (e: Edge)
    requires Climbs(cap, before, height) && Steep(height, path) && Rerouted(cap, before, after, path) && height(SINK) == |path|
    requires ResidualPath(cap, before, path, SINK) && Saturated(cap, after, path, u, w)
    ensures e in ShortEdges(cap, before, |path|) && e !in ShortEdges(cap, after, |path|)
  {
    StepIsResidual(cap, before, path, SINK, u, w);
    e := if (u, w) in cap then (u, w) else (w, u);
    assert height(w) == height(u) + 1;
    assert ShortEdge(cap, before, |path|, e);
    if ShortEdge(cap, after, |path|, e) {
      ShortEdgeStays(cap, before, after, height, path, e);
    }
  }

  lemma FewerShortEdges(cap: EdgeWeights, before: EdgeWeights, after: EdgeWeights, height: Vertex -> int,
                        path: seq<Vertex>, u: Vertex, w: Vertex)
    requires Climbs(cap, before, height) && Steep(height, path) && Rerouted(cap, before, after, path) && height(SINK) == |path|
    requires ResidualPath(cap, before, path, SINK) && Saturated(cap, after, path, u, w)
    ensures |ShortEdges(cap, after, |path|)| < |ShortEdges(cap, before, |path|)|
  {
    var A, B := ShortEdges(cap, after, |path|), ShortEdges(cap, before, |path|);
    var e := SaturatedDropsOut(cap, before, after, height, path, u, w);
    forall x | x in A ensures x in B - {e} {
      ShortEdgeStays(cap, before, after, height, path, x);
    }
    SubsetSize(A, B - {e});
  }

  // ----- counting augmentations -----

  ghost predicate AtLeast(cap: EdgeWeights, flow: EdgeWeights, n: int)
  {
    forall p | ResidualPath(cap, flow, p, SINK) :: |p| >= n
  }

  /** After `rounds` augmentations the paths have n vertices or more; what is left of the budget of |cap| rounds for
      every length up to `limit` covers the edges still on paths of that length. */
  ghost predicate WithinRounds(cap: EdgeWeights, flow: EdgeWeights, limit: int, n: int, rounds: int)
  {
    && 1 <= n <= limit && AtLeast(cap, flow, n)
    && rounds + (limit - n) * |cap| + |ShortEdges(cap, flow, n)| <= (limit - 1) * |cap|
  }

  lemma NoRoundsYet(cap: EdgeWeights, flow: EdgeWeights, limit: int)
    requires limit >= 1
    ensures WithinRounds(cap, flow, limit, 1, 0)
  {
    forall e ensures e !in ShortEdges(cap, flow, 1) { }
    assert ShortEdges(cap, flow, 1) == {};
  }

  lemma RoundsBounded(cap: EdgeWeights, flow: EdgeWeights, limit: int, n: int, rounds: int)
    requires WithinRounds(cap, flow, limit, n, rounds)
    ensures rounds <= (limit - 1) * |cap|
  {
    assert (limit - n) * |cap| >= 0;
  }

  lemma {:induction false} LengthPays(limit: int, n: int, m: int, c: int, k: int)
    requires n < m && 0 <= k <= c
    ensures (limit - m) * c + k <= (limit - n) * c
    decreases m - n
  {
    assert (limit - m) * c + c == (limit - (m - 1)) * c;
    if n < m - 1 {
      LengthPays(limit, n, m - 1, c, 0);
    }
  }

  /** Raising the length pays for all edges on paths of the new length. */
  lemma RaiseLength(cap: EdgeWeights, flow: EdgeWeights, limit: int, n: int, m: int, rounds: int)
    requires WithinRounds(cap, flow, limit, n, rounds) && n <= m <= limit && AtLeast(cap, flow, m)
    ensures WithinRounds(cap, flow, limit, m, rounds)
  {
    if n < m {
      SubsetSize(ShortEdges(cap, flow, m), cap.Keys);
      LengthPays(limit, n, m, |cap|, |ShortEdges(cap, flow, m)|);
    }
  }

  lemma OneMoreRound(cap: EdgeWeights, before: EdgeWeights, after: EdgeWeights, height: Vertex -> int, path: seq<Vertex>,
                     u: Vertex, w: Vertex, limit: int, n: int, rounds: int)
    requires WithinRounds(cap, before, limit, n, rounds) && |path| <= limit
    requires Climbs(cap, before, height) && Steep(height, path) && Rerouted(cap, before, after, path) && height(SINK) == |path|
    requires ResidualPath(cap, before, path, SINK) && Saturated(cap, after, path, u, w)
    ensures WithinRounds(cap, after, limit, |path|, rounds + 1)
  {
    StillClimbs(cap, before, after, height, path);
    forall p | ResidualPath(cap, before, p, SINK) ensures |p| >= |path| {
      PathIsLong(cap, before, height, p, SINK);
    }
    forall p | ResidualPath(cap, after, p, SINK) ensures |p| >= |path| {
      PathIsLong(cap, after, height, p, SINK);
    }
    RaiseLength(cap, before, limit, n, |path|, rounds);
    FewerShortEdges(cap, before, after, height, path, u, w);
  }
}
