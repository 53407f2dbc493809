/** Maximum flow by shortest augmenting paths, and the minimum cut it leaves behind. */
module EdmondsKarp {
  import opened FiniteSums
  import opened FlowNetwork
  import opened AugmentingPaths

  type Predecessors = map<Vertex, Vertex>
  type Fringe = seq<(Vertex, Word)>

  /** `p` is a simple residual path from the source to v, and following `preds` from v retraces it. */
  ghost predicate TreePath(cap: EdgeWeights, flow: EdgeWeights, preds: Predecessors, p: seq<Vertex>, v: Vertex)
  {
    && p != []
    && p[|p| - 1] == v
    && v in preds
    && if |p| == 1 then v == SOURCE
       else
         var u := p[|p| - 2];
         && v != SOURCE
         && preds[v] == u
         && v !in p[..|p| - 1]
         && Residual(cap, flow, u, v) > 0
         && TreePath(cap, flow, preds, p[..|p| - 1], u)
  }

  lemma {:induction false} TreePathIsResidual(cap: EdgeWeights, flow: EdgeWeights, preds: Predecessors, p: seq<Vertex>, v: Vertex)
    requires TreePath(cap, flow, preds, p, v)
    ensures ResidualPath(cap, flow, p, v)
    decreases |p|
  {
    if |p| > 1 {
      TreePathIsResidual(cap, flow, preds, p[..|p| - 1], p[|p| - 2]);
    }
  }

  lemma {:induction false} TreePathVertices(cap: EdgeWeights, flow: EdgeWeights, preds: Predecessors, p: seq<Vertex>, v: Vertex, x: Vertex)
    requires TreePath(cap, flow, preds, p, v) && x in p
    ensures x in preds
    decreases |p|
  {
    if x != v {
      TreePathVertices(cap, flow, preds, p[..|p| - 1], p[|p| - 2], x);
    }
  }

  /** Recording another vertex does not disturb the paths found before. */
  lemma {:induction false} TreePathFrame(cap: EdgeWeights, flow: EdgeWeights, preds: Predecessors, p: seq<Vertex>, x: Vertex, v: Vertex, w: Vertex)
    requires TreePath(cap, flow, preds, p, x) && w !in preds
    ensures TreePath(cap, flow, preds[w := v], p, x)
    decreases |p|
  {
    if |p| > 1 {
      TreePathFrame(cap, flow, preds, p[..|p| - 1], p[|p| - 2], v, w);
    }
  }

  /** The paths found so far, and the bottleneck of each. */
  ghost predicate SearchTree(cap: EdgeWeights, flow: EdgeWeights, preds: Predecessors,
                             paths: map<Vertex, seq<Vertex>>, width: map<Vertex, Word>)
  {
    && preds.Keys == paths.Keys == width.Keys && SOURCE in preds
    && (forall v {:trigger TreePath(cap, flow, preds, paths[v], v)} | v in paths :: TreePath(cap, flow, preds, paths[v], v))
    && (forall v {:trigger Bottleneck(cap, flow, paths[v])} | v in paths :: width[v] == Bottleneck(cap, flow, paths[v]) && width[v] > 0)
  }

  lemma ExtendPath(cap: EdgeWeights, flow: EdgeWeights, preds: Predecessors, p: seq<Vertex>, v: Vertex, w: Vertex)
    requires TreePath(cap, flow, preds, p, v) && w !in preds && w != SOURCE && Residual(cap, flow, v, w) > 0
    ensures TreePath(cap, flow, preds[w := v], p + [w], w)
    ensures Bottleneck(cap, flow, p + [w]) == Min(Bottleneck(cap, flow, p), Residual(cap, flow, v, w))
  {
    assert (p + [w])[..|p|] == p;
    TreePathFrame(cap, flow, preds, p, v, v, w);
    if w in p {
      TreePathVertices(cap, flow, preds, p, v, w);
    }
  }

  lemma GrowTree(cap: EdgeWeights, flow: EdgeWeights, preds: Predecessors,
                 paths: map<Vertex, seq<Vertex>>, width: map<Vertex, Word>, v: Vertex, w: Vertex, d: Word)
    requires SearchTree(cap, flow, preds, paths, width) && v in preds && w !in preds
    requires Residual(cap, flow, v, w) > 0 && d == Min(width[v], Residual(cap, flow, v, w))
    ensures SearchTree(cap, flow, preds[w := v], paths[w := paths[v] + [w]], width[w := d])
  {
    assert TreePath(cap, flow, preds, paths[v], v) && width[v] == Bottleneck(cap, flow, paths[v]);
    ExtendPath(cap, flow, preds, paths[v], v, w);
    var paths', width' := paths[w := paths[v] + [w]], width[w := d];
    forall x | x in paths'
      ensures TreePath(cap, flow, preds[w := v], paths'[x], x)
      ensures width'[x] == Bottleneck(cap, flow, paths'[x]) && width'[x] > 0
    {
      if x != w {
        assert TreePath(cap, flow, preds, paths[x], x) && width[x] == Bottleneck(cap, flow, paths[x]);
        TreePathFrame(cap, flow, preds, paths[x], x, v, w);
      }
    }
  }

  ghost function FringeVertices(fringe: Fringe): set<Vertex>
  {
    set i | 0 <= i < |fringe| :: fringe[i].0
  }

  /** The queue holds found but unscanned vertices, each once, with the bottleneck of its path. */
  ghost predicate Queued(width: map<Vertex, Word>, fringe: Fringe, scanned: set<Vertex>)
  {
    && (forall i | 0 <= i < |fringe| :: fringe[i].0 in width && fringe[i].0 !in scanned && fringe[i].1 == width[fringe[i].0])
    && (forall i, j | 0 <= i < j < |fringe| :: fringe[i].0 != fringe[j].0)
    && width.Keys == scanned + FringeVertices(fringe)
  }

  lemma Enqueue(width: map<Vertex, Word>, fringe: Fringe, scanned: set<Vertex>, w: Vertex, d: Word)
    requires Queued(width, fringe, scanned) && w !in width
    ensures Queued(width[w := d], fringe + [(w, d)], scanned)
  {
    var fringe' := fringe + [(w, d)];
    assert FringeVertices(fringe') == FringeVertices(fringe) + {w} by {
      assert fringe'[|fringe|].0 == w;
      forall x | x in FringeVertices(fringe) ensures x in FringeVertices(fringe') {
        var i :| 0 <= i < |fringe| && fringe[i].0 == x;
        assert fringe'[i].0 == x;
      }
    }
  }

  lemma Dequeue(width: map<Vertex, Word>, fringe: Fringe, scanned: set<Vertex>)
    requires Queued(width, fringe, scanned) && fringe != []
    ensures Queued(width, fringe[1..], scanned + {fringe[0].0})
    ensures fringe[0].0 in width && fringe[0].0 !in scanned && fringe[0].1 == width[fringe[0].0]
  {
    forall x | x in FringeVertices(fringe) && x != fringe[0].0 ensures x in FringeVertices(fringe[1..]) {
      var i :| 0 <= i < |fringe| && fringe[i].0 == x;
      assert fringe[1..][i - 1].0 == x;
    }
    assert FringeVertices(fringe) == {fringe[0].0} + FringeVertices(fringe[1..]);
  }

  // ----- breadth first -----

  ghost function Len(paths: map<Vertex, seq<Vertex>>, x: Vertex): int
  {
    if x in paths then |paths[x]| else 0
  }

  /** The queue is sorted by path length and spans the lengths d and d + 1; scanned vertices are no further. */
  ghost predicate Leveled(paths: map<Vertex, seq<Vertex>>, fringe: Fringe, scanned: set<Vertex>, d: int)
  {
    && (forall i | 0 <= i < |fringe| :: d <= Len(paths, fringe[i].0) <= d + 1)
    && (forall i, j | 0 <= i < j < |fringe| :: Len(paths, fringe[i].0) <= Len(paths, fringe[j].0))
    && (forall x | x in scanned :: Len(paths, x) <= d)
  }

  lemma EnqueueLevel(paths: map<Vertex, seq<Vertex>>, fringe: Fringe, scanned: set<Vertex>, d: int, w: Vertex, p: seq<Vertex>, c: Word)
    requires Leveled(paths, fringe, scanned, d) && w !in paths && |p| == d + 1
    requires (forall i | 0 <= i < |fringe| :: fringe[i].0 in paths) && forall x | x in scanned :: x in paths
    ensures Leveled(paths[w := p], fringe + [(w, c)], scanned, d)
  {
    var fringe' := fringe + [(w, c)];
    forall i | 0 <= i < |fringe'| ensures Len(paths[w := p], fringe'[i].0) == if i < |fringe| then Len(paths, fringe[i].0) else d + 1 { }
  }

  lemma DequeueLevel(paths: map<Vertex, seq<Vertex>>, fringe: Fringe, scanned: set<Vertex>, d: int)
    requires Leveled(paths, fringe, scanned, d) && fringe != []
    ensures Leveled(paths, fringe[1..], scanned + {fringe[0].0}, Len(paths, fringe[0].0))
  {
    forall i | 0 <= i < |fringe[1..]| ensures Len(paths, fringe[0].0) <= Len(paths, fringe[1..][i].0) {
      assert fringe[1..][i] == fringe[i + 1];
    }
  }

  /** Every residual neighbour of v has been found, at most one step further away. */
  ghost predicate Explored(cap: EdgeWeights, flow: EdgeWeights, paths: map<Vertex, seq<Vertex>>, v: Vertex)
  {
    forall w | Residual(cap, flow, v, w) > 0 :: w in paths && Len(paths, w) <= Len(paths, v) + 1
  }

  ghost predicate Search(cap: EdgeWeights, flow: EdgeWeights, preds: Predecessors, paths: map<Vertex, seq<Vertex>>,
                         width: map<Vertex, Word>, fringe: Fringe, scanned: set<Vertex>, d: int)
  {
    SearchTree(cap, flow, preds, paths, width) && Queued(width, fringe, scanned) && Leveled(paths, fringe, scanned, d)
  }

  ghost predicate Extends(paths: map<Vertex, seq<Vertex>>, more: map<Vertex, seq<Vertex>>)
  {
    forall x | x in paths :: x in more && more[x] == paths[x]
  }

  lemma ExploredGrows(cap: EdgeWeights, flow: EdgeWeights, paths: map<Vertex, seq<Vertex>>, more: map<Vertex, seq<Vertex>>, scanned: set<Vertex>)
    requires Extends(paths, more) && forall v | v in scanned :: v in paths && Explored(cap, flow, paths, v)
    ensures forall v | v in scanned :: Explored(cap, flow, more, v)
  {
  }

  /** All that has been found is at most one step beyond depth d. */
  lemma FoundIsNear(cap: EdgeWeights, flow: EdgeWeights, preds: Predecessors, paths: map<Vertex, seq<Vertex>>,
                    width: map<Vertex, Word>, fringe: Fringe, scanned: set<Vertex>, d: int, x: Vertex)
    requires Search(cap, flow, preds, paths, width, fringe, scanned, d) && x in paths
    ensures Len(paths, x) <= d + 1 && (x !in scanned ==> d <= Len(paths, x))
  {
    assert x in width.Keys;
    if x !in scanned {
      assert x in FringeVertices(fringe);
      var i :| 0 <= i < |fringe| && fringe[i].0 == x;
    }
  }

  lemma NowExplored(cap: EdgeWeights, flow: EdgeWeights, preds: Predecessors, paths: map<Vertex, seq<Vertex>>,
                    width: map<Vertex, Word>, fringe: Fringe, scanned: set<Vertex>, v: Vertex, ws: seq<Vertex>, us: seq<Vertex>)
    requires Search(cap, flow, preds, paths, width, fringe, scanned + {v}, Len(paths, v))
    requires AllFound(cap, flow, preds, v, ws) && forall w: Vertex :: (v, w) in cap ==> w in ws
    requires AllFound(cap, flow, preds, v, us) && forall u: Vertex :: (u, v) in cap ==> u in us
    ensures Explored(cap, flow, paths, v)
  {
    forall w | Residual(cap, flow, v, w) > 0 ensures w in paths && Len(paths, w) <= Len(paths, v) + 1 {
      assert w in preds;
      FoundIsNear(cap, flow, preds, paths, width, fringe, scanned + {v}, Len(paths, v), w);
    }
  }

  ghost predicate AllFound(cap: EdgeWeights, flow: EdgeWeights, preds: Predecessors, v: Vertex, ws: seq<Vertex>)
  {
    forall w | w in ws && Residual(cap, flow, v, w) > 0 :: w in preds
  }

  /** Recording w, found by way of v, keeps the search state well formed. */
  lemma Discover(cap: EdgeWeights, flow: EdgeWeights, preds: Predecessors, paths: map<Vertex, seq<Vertex>>,
                 width: map<Vertex, Word>, fringe: Fringe, scanned: set<Vertex>, v: Vertex, w: Vertex, c: Word)
    requires Search(cap, flow, preds, paths, width, fringe, scanned, Len(paths, v)) && v in preds && w !in preds
    requires Residual(cap, flow, v, w) > 0 && c == Min(width[v], Residual(cap, flow, v, w))
    ensures Search(cap, flow, preds[w := v], paths[w := paths[v] + [w]], width[w := c], fringe + [(w, c)], scanned, Len(paths, v))
    ensures Extends(paths, paths[w := paths[v] + [w]])
  {
    GrowTree(cap, flow, preds, paths, width, v, w, c);
    Enqueue(width, fringe, scanned, w, c);
    forall i | 0 <= i < |fringe| ensures fringe[i].0 in paths {
      assert fringe[i].0 in width;
    }
    forall x | x in scanned ensures x in paths {
      assert x in width.Keys;
    }
    EnqueueLevel(paths, fringe, scanned, Len(paths, v), w, paths[v] + [w], c);
  }

  ghost predicate Reversed(adj: Adjacencies, rev: Adjacencies)
  {
    forall v: Vertex, w: Vertex :: v in Neighbours(rev, w) <==> w in Neighbours(adj, v)
  }

  /** Adjacency lists of the reversed graph; the order in which `adj` is traversed is left open. */
  method ReverseAdjacency(adj: Adjacencies) returns (rev: Adjacencies)
    ensures Reversed(adj, rev)
  {
    rev := map[];
    var todo := adj.Keys;
    while todo != {}
      invariant todo <= adj.Keys
      invariant forall v: Vertex, w: Vertex :: v in Neighbours(rev, w) <==> v !in todo && w in Neighbours(adj, v)
      decreases todo
    {
      var u := Pick(todo);
      for i := 0 to |adj[u]|
        invariant forall v: Vertex, w: Vertex :: v in Neighbours(rev, w) <==>
                    (v !in todo && w in Neighbours(adj, v)) || (v == u && w in adj[u][..i])
      {
        var w := adj[u][i];
        assert adj[u][..i + 1] == adj[u][..i] + [w];
        ghost var was := rev;
        rev := rev[w := Neighbours(rev, w) + [u]];
        assert forall v: Vertex, x: Vertex :: v in Neighbours(rev, x) <==> v in Neighbours(was, x) || (x == w && v == u);
      }
      assert adj[u][..|adj[u]|] == adj[u];
      todo := todo - {u};
    }
  }

  lemma NeighboursOf(adj: Adjacencies, rev: Adjacencies, cap: EdgeWeights, v: Vertex, V: set<Vertex>)
    requires Adjacent(adj, cap) && Reversed(adj, rev) && CoversVertices(cap, V)
    ensures forall w: Vertex :: w in Neighbours(adj, v) <==> (v, w) in cap
    ensures forall u: Vertex :: u in Neighbours(rev, v) <==> (u, v) in cap
    ensures (set w | w in Neighbours(adj, v)) <= V && (set u | u in Neighbours(rev, v)) <= V
    ensures forall u: Vertex | (u, v) in cap :: (v, u) !in cap && u != SINK
  {
    forall w: Vertex | w in Neighbours(adj, v) || w in Neighbours(rev, v) ensures w in V {
      assert (v, w) in cap || (w, v) in cap;
    }
  }

  /** The state of a pass over ws, of which the first i have been looked at. */
  ghost predicate Scanning(cap: EdgeWeights, used: EdgeWeights, paths0: map<Vertex, seq<Vertex>>, preds: Predecessors,
                           paths: map<Vertex, seq<Vertex>>, width: map<Vertex, Word>, fringe: Fringe, scanned: set<Vertex>,
                           v: Vertex, flow: Word, ws: seq<Vertex>, i: int)
    requires 0 <= i <= |ws|
  {
    && Search(cap, used, preds, paths, width, fringe, scanned, Len(paths0, v)) && Extends(paths0, paths)
    && preds.Keys <= paths0.Keys + Elems(ws)
    && v in paths0 && v in preds && flow == width[v]
    && AllFound(cap, used, preds, v, ws[..i])
  }

  lemma StartScan(cap: EdgeWeights, used: EdgeWeights, preds: Predecessors, paths: map<Vertex, seq<Vertex>>, width: map<Vertex, Word>,
                  fringe: Fringe, scanned: set<Vertex>, v: Vertex, flow: Word, ws: seq<Vertex>)
    requires Search(cap, used, preds, paths, width, fringe, scanned, Len(paths, v)) && v in preds && flow == width[v]
    ensures Scanning(cap, used, paths, preds, paths, width, fringe, scanned, v, flow, ws, 0)
  {
    assert v in preds.Keys;
  }

  lemma ScanSkip(cap: EdgeWeights, used: EdgeWeights, paths0: map<Vertex, seq<Vertex>>, preds: Predecessors,
                 paths: map<Vertex, seq<Vertex>>, width: map<Vertex, Word>, fringe: Fringe, scanned: set<Vertex>,
                 v: Vertex, flow: Word, ws: seq<Vertex>, i: int)
    requires 0 <= i < |ws| && Scanning(cap, used, paths0, preds, paths, width, fringe, scanned, v, flow, ws, i)
    requires Residual(cap, used, v, ws[i]) == 0 || ws[i] in preds
    ensures Scanning(cap, used, paths0, preds, paths, width, fringe, scanned, v, flow, ws, i + 1)
  {
    assert ws[..i + 1] == ws[..i] + [ws[i]];
  }

  lemma ScanAdd(cap: EdgeWeights, used: EdgeWeights, paths0: map<Vertex, seq<Vertex>>, preds: Predecessors,
                paths: map<Vertex, seq<Vertex>>, width: map<Vertex, Word>, fringe: Fringe, scanned: set<Vertex>,
                v: Vertex, flow: Word, ws: seq<Vertex>, i: int, c: Word)
    requires 0 <= i < |ws| && Scanning(cap, used, paths0, preds, paths, width, fringe, scanned, v, flow, ws, i)
    requires Residual(cap, used, v, ws[i]) > 0 && ws[i] !in preds && c == Min(flow, Residual(cap, used, v, ws[i]))
    ensures var w := ws[i];
            && v in paths && Len(paths[w := paths[v] + [w]], w) == Len(paths0, v) + 1
            && Scanning(cap, used, paths0, preds[w := v], paths[w := paths[v] + [w]], width[w := c], fringe + [(w, c)], scanned, v, flow, ws, i + 1)
  {
    var w := ws[i];
    assert v in paths0 && w !in paths.Keys;
    Discover(cap, used, preds, paths, width, fringe, scanned, v, w, c);
    assert ws[..i + 1] == ws[..i] + [w];
    assert w in Elems(ws);
  }

  /** One pass of the search over the outgoing edges v->w, w in ws. Stops as soon as the sink is found. */
  method ScanForward(cap: EdgeWeights, used: EdgeWeights, v: Vertex, ws: seq<Vertex>, flow: Word,
                     preds0: Predecessors, fringe0: Fringe,
                     ghost paths0: map<Vertex, seq<Vertex>>, ghost width0: map<Vertex, Word>, ghost scanned: set<Vertex>)
    returns (found: Word, preds: Predecessors, fringe: Fringe, ghost paths: map<Vertex, seq<Vertex>>, ghost width: map<Vertex, Word>)
    requires forall w | w in ws :: (v, w) in cap
    requires Search(cap, used, preds0, paths0, width0, fringe0, scanned, Len(paths0, v))
    requires v in preds0 && flow == width0[v] && flow > 0 && SINK !in preds0
    ensures found == 0 ==> SINK !in preds && Scanning(cap, used, paths0, preds, paths, width, fringe, scanned, v, flow, ws, |ws|)
    ensures found > 0 ==> SinkReached(cap, used, paths0, preds, paths, width, fringe, scanned, v) && found == width[SINK]
  {
    preds, fringe, paths, width := preds0, fringe0, paths0, width0;
    StartScan(cap, used, preds, paths, width, fringe, scanned, v, flow, ws);
    for i := 0 to |ws|
      invariant Scanning(cap, used, paths0, preds, paths, width, fringe, scanned, v, flow, ws, i) && SINK !in preds
    {
      var w := ws[i];
      assert w in ws;
      var rem := if WeightOf(cap, (v, w)) == INFINITE then INFINITE
                 else WordSub(WeightOf(cap, (v, w)), WeightOf(used, (v, w)));
      assert rem == Residual(cap, used, v, w);
      if rem > 0 && w !in preds {
        var min := Min(flow, rem);
        ScanAdd(cap, used, paths0, preds, paths, width, fringe, scanned, v, flow, ws, i, min);
        preds, paths, width := preds[w := v], paths[w := paths[v] + [w]], width[w := min];
        fringe := fringe + [(w, min)];
        if w == SINK {
          return min, preds, fringe, paths, width;
        }
      } else {
        ScanSkip(cap, used, paths0, preds, paths, width, fringe, scanned, v, flow, ws, i);
      }
    }
    found := 0;
  }

  /** The search state when a pass from v has found the sink. */
  ghost predicate SinkReached(cap: EdgeWeights, used: EdgeWeights, paths0: map<Vertex, seq<Vertex>>, preds: Predecessors,
                              paths: map<Vertex, seq<Vertex>>, width: map<Vertex, Word>, fringe: Fringe, scanned: set<Vertex>, v: Vertex)
  {
    && Search(cap, used, preds, paths, width, fringe, scanned, Len(paths0, v)) && Extends(paths0, paths)
    && SINK in preds && SINK in paths && SINK in width && Len(paths, SINK) == Len(paths0, v) + 1
  }

  /** One pass of the search over the incoming edges u->v, u in us, whose flow can be sent back. */
  method ScanBackward(ghost cap: EdgeWeights, used: EdgeWeights, v: Vertex, us: seq<Vertex>, flow: Word,
                      preds0: Predecessors, fringe0: Fringe,
                      ghost paths0: map<Vertex, seq<Vertex>>, ghost width0: map<Vertex, Word>, ghost scanned: set<Vertex>)
    returns (preds: Predecessors, fringe: Fringe, ghost paths: map<Vertex, seq<Vertex>>, ghost width: map<Vertex, Word>)
    requires forall u | u in us :: (u, v) in cap && (v, u) !in cap && u != SINK
    requires Search(cap, used, preds0, paths0, width0, fringe0, scanned, Len(paths0, v))
    requires v in preds0 && flow == width0[v] && flow > 0 && SINK !in preds0
    ensures SINK !in preds && preds0.Keys <= preds.Keys
    ensures Scanning(cap, used, paths0, preds, paths, width, fringe, scanned, v, flow, us, |us|)
  {
    preds, fringe, paths, width := preds0, fringe0, paths0, width0;
    StartScan(cap, used, preds, paths, width, fringe, scanned, v, flow, us);
    for i := 0 to |us|
      invariant Scanning(cap, used, paths0, preds, paths, width, fringe, scanned, v, flow, us, i) && SINK !in preds
      invariant preds0.Keys <= preds.Keys
    {
      var u := us[i];
      assert u in us;
      var rem := WeightOf(used, (u, v));
      assert rem == Residual(cap, used, v, u);
      if rem > 0 && u !in preds {
        var min := Min(flow, rem);
        ScanAdd(cap, used, paths0, preds, paths, width, fringe, scanned, v, flow, us, i, min);
        preds, paths, width := preds[u := v], paths[u := paths[v] + [u]], width[u := min];
        fringe := fringe + [(u, min)];
      } else {
        ScanSkip(cap, used, paths0, preds, paths, width, fringe, scanned, v, flow, us, i);
      }
    }
  }

  /** The state of the search as long as the sink has not been found. */
  ghost predicate Open(cap: EdgeWeights, used: EdgeWeights, preds: Predecessors, paths: map<Vertex, seq<Vertex>>,
                       width: map<Vertex, Word>, fringe: Fringe, scanned: set<Vertex>, d: int, V: set<Vertex>)
  {
    && Search(cap, used, preds, paths, width, fringe, scanned, d)
    && (forall v | v in scanned :: v in paths && Explored(cap, used, paths, v))
    && SINK !in preds && preds.Keys <= V
  }

  /** The state while v, just taken off the queue with bottleneck `flow`, is being visited. */
  ghost predicate Visiting(cap: EdgeWeights, used: EdgeWeights, preds: Predecessors, paths: map<Vertex, seq<Vertex>>,
                           width: map<Vertex, Word>, fringe: Fringe, scanned: set<Vertex>, v: Vertex, flow: Word, V: set<Vertex>)
  {
    && Search(cap, used, preds, paths, width, fringe, scanned + {v}, Len(paths, v))
    && (forall x | x in scanned :: x in paths && Explored(cap, used, paths, x))
    && SINK !in preds && preds.Keys <= V && v in preds && v in paths && flow == width[v] && flow > 0
  }

  /** The state when the sink is found from v, at depth d. */
  ghost predicate SinkFound(cap: EdgeWeights, used: EdgeWeights, preds: Predecessors, paths: map<Vertex, seq<Vertex>>,
                            width: map<Vertex, Word>, fringe: Fringe, scanned: set<Vertex>, v: Vertex, d: int)
  {
    && Search(cap, used, preds, paths, width, fringe, scanned + {v}, d) && v in paths && Len(paths, v) == d
    && (forall x | x in scanned :: Explored(cap, used, paths, x))
    && SINK in preds && SINK in paths && SINK in width && Len(paths, SINK) == d + 1
  }

  /** Both passes over the edges at v, the vertex just taken off the queue. */
  method Visit(adj: Adjacencies, rev: Adjacencies, cap: EdgeWeights, used: EdgeWeights, v: Vertex, flow: Word,
               preds0: Predecessors, fringe0: Fringe, ghost V: set<Vertex>,
               ghost paths0: map<Vertex, seq<Vertex>>, ghost width0: map<Vertex, Word>, ghost scanned: set<Vertex>)
    returns (found: Word, preds: Predecessors, fringe: Fringe, ghost paths: map<Vertex, seq<Vertex>>, ghost width: map<Vertex, Word>)
    requires Adjacent(adj, cap) && Reversed(adj, rev) && CoversVertices(cap, V)
    requires Visiting(cap, used, preds0, paths0, width0, fringe0, scanned, v, flow, V)
    ensures found == 0 ==> Open(cap, used, preds, paths, width, fringe, scanned + {v}, Len(paths0, v), V)
    ensures found > 0 ==> SinkFound(cap, used, preds, paths, width, fringe, scanned, v, Len(paths0, v)) && found == width[SINK]
  {
    NeighboursOf(adj, rev, cap, v, V);
    found, preds, fringe, paths, width :=
      ScanForward(cap, used, v, Neighbours(adj, v), flow, preds0, fringe0, paths0, width0, scanned + {v});
    if found > 0 {
      ExploredGrows(cap, used, paths0, paths, scanned);
    } else {
      preds, fringe, paths, width :=
        ScanBackward(cap, used, v, Neighbours(rev, v), flow, preds, fringe, paths, width, scanned + {v});
      NowExplored(cap, used, preds, paths, width, fringe, scanned, v, Neighbours(adj, v), Neighbours(rev, v));
      StillOpen(cap, used, preds, paths0, paths, width, fringe, scanned, v, V);
    }
  }

  lemma StillOpen(cap: EdgeWeights, used: EdgeWeights, preds: Predecessors, paths0: map<Vertex, seq<Vertex>>, paths: map<Vertex, seq<Vertex>>,
                  width: map<Vertex, Word>, fringe: Fringe, scanned: set<Vertex>, v: Vertex, V: set<Vertex>)
    requires Search(cap, used, preds, paths, width, fringe, scanned + {v}, Len(paths0, v)) && Extends(paths0, paths)
    requires forall x | x in scanned :: x in paths0 && Explored(cap, used, paths0, x)
    requires v in paths && Explored(cap, used, paths, v) && SINK !in preds && preds.Keys <= V
    ensures Open(cap, used, preds, paths, width, fringe, scanned + {v}, Len(paths0, v), V)
  {
    ExploredGrows(cap, used, paths0, paths, scanned);
  }

  /** Once the queue is empty, the found vertices form a closed cut. */
  lemma SearchedAll(cap: EdgeWeights, used: EdgeWeights, preds: Predecessors, paths: map<Vertex, seq<Vertex>>,
                    width: map<Vertex, Word>, scanned: set<Vertex>, d: int)
    requires Search(cap, used, preds, paths, width, [], scanned, d) && SINK !in preds
    requires forall x | x in scanned :: Explored(cap, used, paths, x)
    ensures IsCut(preds.Keys) && Closed(cap, used, preds.Keys) && !Reachable(cap, used, SINK)
  {
    assert FringeVertices([]) == {};
    assert preds.Keys == scanned;
    forall u, w | u in scanned && Residual(cap, used, u, w) > 0 ensures w in preds.Keys {
      assert Explored(cap, used, paths, u);
      assert w in paths.Keys;
    }
    BlockedSink(cap, used, preds.Keys);
  }

  lemma PathFound(cap: EdgeWeights, used: EdgeWeights, preds: Predecessors, paths: map<Vertex, seq<Vertex>>, width: map<Vertex, Word>, v: Vertex)
    requires SearchTree(cap, used, preds, paths, width) && v in preds
    ensures TreePath(cap, used, preds, paths[v], v) && width[v] == Bottleneck(cap, used, paths[v]) && width[v] > 0
    ensures Reachable(cap, used, v)
  {
    TreePathIsResidual(cap, used, preds, paths[v], v);
  }

  lemma TakeFront(cap: EdgeWeights, used: EdgeWeights, preds: Predecessors, paths: map<Vertex, seq<Vertex>>,
                  width: map<Vertex, Word>, fringe: Fringe, scanned: set<Vertex>, d: int, V: set<Vertex>)
    requires Open(cap, used, preds, paths, width, fringe, scanned, d, V) && fringe != []
    ensures Visiting(cap, used, preds, paths, width, fringe[1..], scanned, fringe[0].0, fringe[0].1, V)
    ensures fringe[0].0 !in scanned && fringe[0].0 in V
  {
    Dequeue(width, fringe, scanned);
    DequeueLevel(paths, fringe, scanned, d);
    assert fringe[0].0 in preds.Keys;
    PathFound(cap, used, preds, paths, width, fringe[0].0);
  }

  // ----- the found path is a shortest one -----

  /** Number of vertices on the found path to x; vertices that were not found count as far as the sink. */
  ghost function HeightOf(paths: map<Vertex, seq<Vertex>>, far: int): Vertex -> int
  {
    x => if x in paths then |paths[x]| else far
  }

  lemma SinkIsFar(cap: EdgeWeights, used: EdgeWeights, preds: Predecessors, paths: map<Vertex, seq<Vertex>>,
                  width: map<Vertex, Word>, fringe: Fringe, scanned: set<Vertex>, v: Vertex, d: int)
    requires Search(cap, used, preds, paths, width, fringe, scanned + {v}, d) && v in paths && Len(paths, v) == d
    requires forall x | x in scanned :: Explored(cap, used, paths, x)
    ensures Climbs(cap, used, HeightOf(paths, d + 1))
  {
    var height := HeightOf(paths, d + 1);
    forall x | x in paths ensures 0 <= Len(paths, x) <= d + 1 && (x !in scanned ==> d <= Len(paths, x)) {
      FoundIsNear(cap, used, preds, paths, width, fringe, scanned + {v}, d, x);
    }
    assert TreePath(cap, used, preds, paths[SOURCE], SOURCE);
    forall u, w | Residual(cap, used, u, w) > 0 ensures height(w) <= height(u) + 1 {
      if u in paths && u in scanned {
        assert Explored(cap, used, paths, u);
      }
    }
  }

  /** The predecessors determine the path. */
  lemma {:induction false} TreePathUnique(cap: EdgeWeights, flow: EdgeWeights, preds: Predecessors, p: seq<Vertex>, q: seq<Vertex>, v: Vertex)
    requires TreePath(cap, flow, preds, p, v) && TreePath(cap, flow, preds, q, v)
    ensures p == q
    decreases |p|
  {
    if |p| > 1 {
      TreePathUnique(cap, flow, preds, p[..|p| - 1], q[..|q| - 1], preds[v]);
      assert p == p[..|p| - 1] + [v] && q == q[..|q| - 1] + [v];
    }
  }

  lemma {:induction false} TreePathIsSteep(cap: EdgeWeights, flow: EdgeWeights, preds: Predecessors, paths: map<Vertex, seq<Vertex>>,
                                           width: map<Vertex, Word>, p: seq<Vertex>, v: Vertex, far: int)
    requires SearchTree(cap, flow, preds, paths, width) && TreePath(cap, flow, preds, p, v)
    ensures Steep(HeightOf(paths, far), p) && HeightOf(paths, far)(v) == |p|
    decreases |p|
  {
    assert TreePath(cap, flow, preds, paths[v], v);
    TreePathUnique(cap, flow, preds, p, paths[v], v);
    if |p| > 1 {
      TreePathIsSteep(cap, flow, preds, paths, width, p[..|p| - 1], p[|p| - 2], far);
    }
  }

  lemma {:induction false} TreePathFits(cap: EdgeWeights, flow: EdgeWeights, preds: Predecessors, p: seq<Vertex>, v: Vertex, V: set<Vertex>)
    requires TreePath(cap, flow, preds, p, v) && CoversVertices(cap, V)
    ensures Elems(p) <= V && |Elems(p)| == |p|
    decreases |p|
  {
    if |p| > 1 {
      var q := p[..|p| - 1];
      TreePathFits(cap, flow, preds, q, p[|p| - 2], V);
      assert p == q + [v];
      assert Elems(p) == Elems(q) + {v};
    } else {
      assert Elems(p) == {SOURCE};
    }
  }

  /** A breadth-first path is simple, residual, and no residual path to the sink is shorter. */
  ghost predicate ShortestPath(cap: EdgeWeights, flow: EdgeWeights, path: seq<Vertex>, height: Vertex -> int)
  {
    && ResidualPath(cap, flow, path, SINK) && |path| <= |VerticesOf(cap)|
    && Climbs(cap, flow, height) && Steep(height, path) && height(SINK) == |path|
    && AtLeast(cap, flow, |path|)
  }

  lemma FoundShortest(cap: EdgeWeights, used: EdgeWeights, preds: Predecessors, paths: map<Vertex, seq<Vertex>>,
                      width: map<Vertex, Word>, fringe: Fringe, scanned: set<Vertex>, v: Vertex, d: int)
    requires SinkFound(cap, used, preds, paths, width, fringe, scanned, v, d)
    ensures ShortestPath(cap, used, paths[SINK], HeightOf(paths, d + 1)) && Reachable(cap, used, SINK)
    ensures TreePath(cap, used, preds, paths[SINK], SINK) && width[SINK] == Bottleneck(cap, used, paths[SINK])
  {
    PathFound(cap, used, preds, paths, width, SINK);
    var path, height := paths[SINK], HeightOf(paths, d + 1);
    assert TreePath(cap, used, preds, path, SINK);
    SinkIsFar(cap, used, preds, paths, width, fringe, scanned, v, d);
    TreePathIsSteep(cap, used, preds, paths, width, path, SINK, d + 1);
    TreePathIsResidual(cap, used, preds, path, SINK);
    VerticesCover(cap);
    TreePathFits(cap, used, preds, path, SINK, VerticesOf(cap));
    SubsetSize(Elems(path), VerticesOf(cap));
    forall p | ResidualPath(cap, used, p, SINK) ensures |p| >= |path| {
      PathIsLong(cap, used, height, p, SINK);
    }
  }

  /** `path` is what the predecessors spell, a shortest path, and has the given bottleneck. */
  ghost predicate Found(cap: EdgeWeights, used: EdgeWeights, preds: Predecessors, path: seq<Vertex>, height: Vertex -> int, additional: Word)
  {
    TreePath(cap, used, preds, path, SINK) && additional == Bottleneck(cap, used, path) && ShortestPath(cap, used, path, height)
  }

  /** The predecessors spell a shortest path to the sink with the given bottleneck. */
  ghost predicate Spells(cap: EdgeWeights, used: EdgeWeights, preds: Predecessors, additional: Word)
  {
    exists path, height :: Found(cap, used, preds, path, height, additional)
  }

  /** The search is open, with the given vertices scanned. */
  ghost predicate Searching(cap: EdgeWeights, used: EdgeWeights, preds: Predecessors, fringe: Fringe, scanned: set<Vertex>, V: set<Vertex>)
  {
    exists paths, width, d :: Open(cap, used, preds, paths, width, fringe, scanned, d, V)
  }

  /** The search starts at the source, with nothing scanned. */
  lemma StartSearch(cap: EdgeWeights, used: EdgeWeights, V: set<Vertex>)
    requires CoversVertices(cap, V)
    ensures Searching(cap, used, map[SOURCE := SOURCE], [(SOURCE, INFINITE)], {}, V)
  {
    assert [(SOURCE, INFINITE)][0].0 == SOURCE;
    assert Open(cap, used, map[SOURCE := SOURCE], map[SOURCE := [SOURCE]], map[SOURCE := INFINITE], [(SOURCE, INFINITE)], {}, 1, V);
  }

  lemma NothingFound(cap: EdgeWeights, used: EdgeWeights, preds: Predecessors, fringe: Fringe, scanned: set<Vertex>, V: set<Vertex>)
    requires Searching(cap, used, preds, fringe, scanned, V) && fringe == []
    ensures IsCut(preds.Keys) && Closed(cap, used, preds.Keys) && !Reachable(cap, used, SINK)
  {
    var paths, width, d :| Open(cap, used, preds, paths, width, fringe, scanned, d, V);
    SearchedAll(cap, used, preds, paths, width, scanned, d);
  }

  /** Takes one vertex off the queue and visits it. */
  method ScanNext(adj: Adjacencies, rev: Adjacencies, cap: EdgeWeights, used: EdgeWeights, preds0: Predecessors, fringe0: Fringe,
                  ghost V: set<Vertex>, ghost scanned0: set<Vertex>)
    returns (found: Word, preds: Predecessors, fringe: Fringe, ghost scanned: set<Vertex>)
    requires Adjacent(adj, cap) && Reversed(adj, rev) && CoversVertices(cap, V) && fringe0 != []
    requires Searching(cap, used, preds0, fringe0, scanned0, V)
    ensures V - scanned < V - scanned0
    ensures found == 0 ==> Searching(cap, used, preds, fringe, scanned, V)
    ensures found > 0 ==> Spells(cap, used, preds, found) && Reachable(cap, used, SINK)
  {
    ghost var paths0, width0, d0 :| Open(cap, used, preds0, paths0, width0, fringe0, scanned0, d0, V);
    var (v, flow) := fringe0[0];
    TakeFront(cap, used, preds0, paths0, width0, fringe0, scanned0, d0, V);
    scanned := scanned0 + {v};
    assert v in V - scanned0 && v !in V - scanned;
    ghost var paths, width;
    found, preds, fringe, paths, width := Visit(adj, rev, cap, used, v, flow, preds0, fringe0[1..], V, paths0, width0, scanned0);
    if found > 0 {
      FoundShortest(cap, used, preds, paths, width, fringe, scanned0, v, Len(paths0, v));
      assert Found(cap, used, preds, paths[SINK], HeightOf(paths, Len(paths0, v) + 1), found);
    }
  }

  /** Breadth-first search of the residual graph. Zero means the sink is out of reach; otherwise the result is the
      bottleneck of the simple residual path that the predecessors spell, and no residual path is shorter. */
  method FindAugmentingPath(adj: Adjacencies, cap: EdgeWeights, used: EdgeWeights)
    returns (additional: Word, preds: Predecessors)
    requires Adjacent(adj, cap)
    ensures additional == 0 <==> !Reachable(cap, used, SINK)
    ensures additional > 0 ==> Spells(cap, used, preds, additional)
    ensures additional == 0 ==> IsCut(preds.Keys) && Closed(cap, used, preds.Keys)
  {
    preds := map[SOURCE := SOURCE];
    var rev := ReverseAdjacency(adj);
    var fringe: Fringe := [(SOURCE, INFINITE)];
    ghost var V := AnyVertices(cap);
    ghost var scanned: set<Vertex> := {};
    StartSearch(cap, used, V);
    while fringe != []
      invariant Searching(cap, used, preds, fringe, scanned, V)
      decreases V - scanned
    {
      additional, preds, fringe, scanned := ScanNext(adj, rev, cap, used, preds, fringe, V, scanned);
      if additional > 0 {
        return;
      }
    }
    NothingFound(cap, used, preds, fringe, scanned, V);
    additional := 0;
  }

  // ----- augmentation -----

  /** Between `before` and `flow`, d units have been sent from w to the sink, and only along edges
      that do not run inside `rest`. */
  ghost predicate Partial(cap: EdgeWeights, before: EdgeWeights, flow: EdgeWeights, rest: seq<Vertex>, w: Vertex, d: Word, total: nat)
  {
    && WithinCapacity(cap, flow, total + d)
    && (forall u: Vertex, v: Vertex | (u, v) in cap && u in rest && v in rest ::
          WeightOf(flow, (u, v)) == WeightOf(before, (u, v)))
    && (forall S: set<Vertex> :: NetOut(cap, flow, S) == NetOut(cap, before, S) + Signed(d, w, SINK, S))
  }

  /** A residual path leaves the source by spare capacity, so the augmented value stays below the source's capacity. */
  lemma {:induction false} AugmentedTotalFits(cap: EdgeWeights, flow: EdgeWeights, preds: Predecessors, p: seq<Vertex>, v: Vertex, d: Word, total: nat)
    requires Feasible(cap, flow, total) && OneWay(cap)
    requires TreePath(cap, flow, preds, p, v) && |p| > 1 && d <= Bottleneck(cap, flow, p)
    requires forall e | e in cap && e.0 == SOURCE :: cap[e] < INFINITE
    ensures total + d <= CutCapacity(cap, {SOURCE})
    decreases |p|
  {
    var u := p[|p| - 2];
    if |p| > 2 {
      AugmentedTotalFits(cap, flow, preds, p[..|p| - 1], u, d, total);
    } else {
      var e := if (u, v) in cap then (u, v) else (v, u);
      VertexBalance(cap, flow, total, SOURCE);
      SumRemove(cap.Keys, e, NetTerm(flow, {SOURCE}));
      SumRemove(cap.Keys, e, CutTerm(cap, {SOURCE}));
      SumLe(cap.Keys - {e}, NetTerm(flow, {SOURCE}), CutTerm(cap, {SOURCE}));
    }
  }

  /** Sending the bottleneck one edge further back along the path. */
  lemma PushStep(cap: EdgeWeights, before: EdgeWeights, flow: EdgeWeights, after: EdgeWeights, preds: Predecessors,
                 rest: seq<Vertex>, w: Vertex, d: Word, total: nat)
    requires OneWay(cap) && Feasible(cap, before, total) && total + d < WORD
    requires TreePath(cap, before, preds, rest, w) && |rest| > 1 && d <= Bottleneck(cap, before, rest)
    requires Partial(cap, before, flow, rest, w, d, total)
    requires Pushed(cap, flow, after, rest[|rest| - 2], w, d)
    ensures Partial(cap, before, after, rest[..|rest| - 1], rest[|rest| - 2], d, total)
  {
    var u := rest[|rest| - 2];
    assert u in rest && w in rest && u in rest[..|rest| - 1];
    assert w !in rest[..|rest| - 1];
    forall S: set<Vertex> ensures NetOut(cap, after, S) == NetOut(cap, before, S) + Signed(d, u, SINK, S) {
      PushedNet(cap, flow, after, u, w, d, S);
    }
    assert WithinCapacity(cap, after, total + d) by {
      forall e | e in cap ensures WeightOf(after, e) <= cap[e] && WeightOf(after, e) <= total + d {
        if e == (u, w) {
          assert WeightOf(flow, e) == WeightOf(before, e);
        }
      }
    }
  }

  /** The real edge between u and w has room for d more units from u to w, in word arithmetic. */
  lemma RoomForPush(cap: EdgeWeights, before: EdgeWeights, flow: EdgeWeights, preds: Predecessors,
                    rest: seq<Vertex>, w: Vertex, d: Word, total: nat)
    requires OneWay(cap) && Feasible(cap, before, total) && total + d < WORD
    requires TreePath(cap, before, preds, rest, w) && |rest| > 1 && d <= Bottleneck(cap, before, rest)
    requires Partial(cap, before, flow, rest, w, d, total)
    ensures var u := rest[|rest| - 2];
            && u != w
            && ((u, w) in cap ==> WeightOf(flow, (u, w)) + d < WORD)
            && ((w, u) in cap ==> d <= WeightOf(flow, (w, u)))
            && ((u, w) in cap || (w, u) in cap)
  {
    var u := rest[|rest| - 2];
    assert u in rest && w in rest && u in rest[..|rest| - 1];
    if (w, u) in cap {
      assert WeightOf(flow, (w, u)) == WeightOf(before, (w, u));
    }
    if (u, w) in cap {
      assert WeightOf(flow, (u, w)) == WeightOf(before, (u, w));
    }
  }

  /** Sends `additional` from u to w. Entries of `flow` for pairs that are not edges are overwritten with wrapped
      differences; they are not part of the flow. */
  method PushAlong(cap: EdgeWeights, before: EdgeWeights, u: Vertex, w: Vertex, additional: Word) returns (flow: EdgeWeights)
    requires u != w && ((u, w) in cap || (w, u) in cap)
    requires (u, w) in cap ==> WeightOf(before, (u, w)) + additional < WORD
    requires (w, u) in cap ==> additional <= WeightOf(before, (w, u))
    ensures Pushed(cap, before, flow, u, w, additional)
  {
    flow := before;
    if (u, w) !in cap {
      flow := flow[(u, w) := 0];
    }
    if (w, u) !in cap {
      flow := flow[(w, u) := 0];
    }
    flow := flow[(u, w) := WordAdd(WeightOf(flow, (u, w)), additional)];
    flow := flow[(w, u) := WordSub(WeightOf(flow, (w, u)), additional)];
  }

  // ----- what an augmentation does to the residual graph -----

  /** Pushing takes residual capacity from u->w, and touches no other pair but w->u. */
  lemma ResidualAfterPush(cap: EdgeWeights, flow: EdgeWeights, after: EdgeWeights, u: Vertex, w: Vertex, d: Word, x: Vertex, y: Vertex)
    requires OneWay(cap) && Pushed(cap, flow, after, u, w, d) && u != w && ((u, w) in cap || (w, u) in cap)
    requires d <= Residual(cap, flow, u, w)
    requires (u, w) in cap ==> WeightOf(flow, (u, w)) + d <= cap[(u, w)]
    ensures (x, y) != (u, w) && (x, y) != (w, u) ==> Residual(cap, after, x, y) == Residual(cap, flow, x, y)
    ensures Residual(cap, after, u, w) == if (u, w) in cap && cap[(u, w)] == INFINITE then INFINITE else Residual(cap, flow, u, w) - d
  {
  }

  lemma {:induction false} PrefixStep(path: seq<Vertex>, n: int)
    requires 2 <= n <= |path|
    ensures StepOf(path, path[n - 2], path[n - 1])
    decreases |path|
  {
    if n < |path| {
      PrefixStep(path[..|path| - 1], n);
    }
  }

  /** Some step of the path that leads out of `rest` has no residual capacity left. */
  ghost predicate SaturatedBeyond(cap: EdgeWeights, flow: EdgeWeights, path: seq<Vertex>, rest: seq<Vertex>)
  {
    exists u, w :: Saturated(cap, flow, path, u, w) && w !in rest
  }

  /** Between `before` and `flow` the path has been pushed along from its end back to the end of `rest`. */
  ghost predicate Traced(cap: EdgeWeights, before: EdgeWeights, flow: EdgeWeights, path: seq<Vertex>, rest: seq<Vertex>, d: Word)
  {
    && |rest| <= |path| && rest == path[..|rest|] && Rerouted(cap, before, flow, path)
    && (d == Bottleneck(cap, before, rest) || SaturatedBeyond(cap, flow, path, rest))
  }

  /** One step back along the path; d fits the edge there. */
  ghost predicate StepBack(cap: EdgeWeights, before: EdgeWeights, flow: EdgeWeights, after: EdgeWeights, rest: seq<Vertex>, d: Word)
  {
    && |rest| > 1
    && var u, w := rest[|rest| - 2], rest[|rest| - 1];
       && OneWay(cap) && Pushed(cap, flow, after, u, w, d) && u != w && ((u, w) in cap || (w, u) in cap)
       && Residual(cap, flow, u, w) == Residual(cap, before, u, w) && d <= Residual(cap, flow, u, w)
       && ((u, w) in cap ==> WeightOf(flow, (u, w)) + d <= cap[(u, w)])
       && w !in rest[..|rest| - 1]
  }

  lemma PushStepsBack(cap: EdgeWeights, before: EdgeWeights, flow: EdgeWeights, after: EdgeWeights, preds: Predecessors,
                      rest: seq<Vertex>, w: Vertex, d: Word, total: nat)
    requires OneWay(cap) && Feasible(cap, before, total) && total + d < WORD
    requires TreePath(cap, before, preds, rest, w) && |rest| > 1 && d <= Bottleneck(cap, before, rest)
    requires Partial(cap, before, flow, rest, w, d, total)
    requires Pushed(cap, flow, after, rest[|rest| - 2], w, d)
    ensures StepBack(cap, before, flow, after, rest, d)
  {
    var u := rest[|rest| - 2];
    RoomForPush(cap, before, flow, preds, rest, w, d, total);
    assert u in rest && w in rest;
  }

  lemma StillRerouted(cap: EdgeWeights, before: EdgeWeights, flow: EdgeWeights, after: EdgeWeights, path: seq<Vertex>, rest: seq<Vertex>, d: Word)
    requires StepBack(cap, before, flow, after, rest, d) && |rest| <= |path| && rest == path[..|rest|]
    requires Rerouted(cap, before, flow, path)
    ensures Rerouted(cap, before, after, path)
  {
    var u, w := rest[|rest| - 2], rest[|rest| - 1];
    PrefixStep(path, |rest|);
    forall x, y | Residual(cap, after, x, y) > 0 ensures Residual(cap, before, x, y) > 0 || StepOf(path, y, x) {
      ResidualAfterPush(cap, flow, after, u, w, d, x, y);
    }
  }

  lemma StillSaturated(cap: EdgeWeights, before: EdgeWeights, flow: EdgeWeights, after: EdgeWeights, path: seq<Vertex>, rest: seq<Vertex>, d: Word)
    requires StepBack(cap, before, flow, after, rest, d) && |rest| <= |path| && rest == path[..|rest|] && d < INFINITE
    requires d == Bottleneck(cap, before, rest) || SaturatedBeyond(cap, flow, path, rest)
    ensures d == Bottleneck(cap, before, rest[..|rest| - 1]) || SaturatedBeyond(cap, after, path, rest[..|rest| - 1])
  {
    var u, w := rest[|rest| - 2], rest[|rest| - 1];
    if SaturatedBeyond(cap, flow, path, rest) {
      var x, y :| Saturated(cap, flow, path, x, y) && y !in rest;
      assert u in rest && w in rest;
      ResidualAfterPush(cap, flow, after, u, w, d, x, y);
      assert Saturated(cap, after, path, x, y) && y !in rest[..|rest| - 1];
    } else if Residual(cap, before, u, w) == d {
      PrefixStep(path, |rest|);
      ResidualAfterPush(cap, flow, after, u, w, d, u, w);
      assert Saturated(cap, after, path, u, w);
    }
  }

  lemma TraceStep(cap: EdgeWeights, before: EdgeWeights, flow: EdgeWeights, after: EdgeWeights, path: seq<Vertex>, rest: seq<Vertex>, d: Word)
    requires StepBack(cap, before, flow, after, rest, d) && d < INFINITE && Traced(cap, before, flow, path, rest, d)
    ensures Traced(cap, before, after, path, rest[..|rest| - 1], d)
  {
    StillRerouted(cap, before, flow, after, path, rest, d);
    StillSaturated(cap, before, flow, after, path, rest, d);
    assert rest[..|rest| - 1] == path[..|rest| - 1];
  }

  lemma WalkBack(cap: EdgeWeights, before: EdgeWeights, flow: EdgeWeights, after: EdgeWeights, preds: Predecessors,
                 path: seq<Vertex>, rest: seq<Vertex>, w: Vertex, d: Word, total: nat)
    requires OneWay(cap) && Feasible(cap, before, total) && total + d < WORD && d < INFINITE
    requires TreePath(cap, before, preds, rest, w) && |rest| > 1 && d <= Bottleneck(cap, before, rest)
    requires Partial(cap, before, flow, rest, w, d, total) && Traced(cap, before, flow, path, rest, d)
    requires Pushed(cap, flow, after, rest[|rest| - 2], w, d)
    ensures Partial(cap, before, after, rest[..|rest| - 1], rest[|rest| - 2], d, total)
    ensures Traced(cap, before, after, path, rest[..|rest| - 1], d)
  {
    PushStep(cap, before, flow, after, preds, rest, w, d, total);
    PushStepsBack(cap, before, flow, after, preds, rest, w, d, total);
    TraceStep(cap, before, flow, after, path, rest, d);
  }

  /** The source edge of the path is finite, so the bottleneck is. */
  lemma {:induction false} BottleneckIsFinite(cap: EdgeWeights, flow: EdgeWeights, preds: Predecessors, p: seq<Vertex>, v: Vertex, d: Word, total: nat)
    requires Feasible(cap, flow, total) && TreePath(cap, flow, preds, p, v) && |p| > 1 && d <= Bottleneck(cap, flow, p)
    requires (forall e | e in cap && e.0 == SOURCE :: cap[e] < INFINITE) && total + d < WORD
    ensures d < INFINITE
    decreases |p|
  {
    var u := p[|p| - 2];
    if |p| > 2 {
      BottleneckIsFinite(cap, flow, preds, p[..|p| - 1], u, d, total);
    } else {
      assert u == SOURCE;
      assert d <= Residual(cap, flow, SOURCE, v);
      var e := if (u, v) in cap then (u, v) else (v, u);
      assert e in cap;
    }
  }

  /** Adds `additional` along the path that `parents` spells. The residual graph gains edges only against the path, and
      loses one along it. */
  method Augment(cap: EdgeWeights, before: EdgeWeights, parents: Predecessors, additional: Word,
                 ghost path: seq<Vertex>, ghost total: nat)
    returns (flow: EdgeWeights)
    requires OneWay(cap) && Feasible(cap, before, total)
    requires TreePath(cap, before, parents, path, SINK) && additional == Bottleneck(cap, before, path)
    requires forall e | e in cap && e.0 == SOURCE :: cap[e] < INFINITE
    requires CutCapacity(cap, {SOURCE}) < WORD
    ensures Feasible(cap, flow, total + additional) && total + additional < WORD
    ensures Rerouted(cap, before, flow, path) && exists u, w :: Saturated(cap, flow, path, u, w)
  {
    flow := before;
    var w := SINK;
    ghost var rest := path;
    AugmentedTotalFits(cap, before, parents, path, SINK, additional, total);
    BottleneckIsFinite(cap, before, parents, path, SINK, additional, total);
    assert path[..|path|] == path;
    while w != SOURCE
      invariant TreePath(cap, before, parents, rest, w) && additional <= Bottleneck(cap, before, rest)
      invariant Partial(cap, before, flow, rest, w, additional, total)
      invariant Traced(cap, before, flow, path, rest, additional)
      decreases |rest|
    {
      var u := parents[w];
      ghost var prior := flow;
      RoomForPush(cap, before, flow, parents, rest, w, additional, total);
      flow := PushAlong(cap, flow, u, w, additional);
      WalkBack(cap, before, prior, flow, parents, path, rest, w, additional, total);
      w, rest := u, rest[..|rest| - 1];
    }
    forall S: set<Vertex> ensures NetOut(cap, flow, S) == Signed(total + additional, SOURCE, SINK, S) {
      assert NetOut(cap, before, S) == Signed(total, SOURCE, SINK, S);
    }
  }

  /** The augmentations so far leave enough of the budget for those to come. */
  ghost predicate OnBudget(cap: EdgeWeights, flow: EdgeWeights, rounds: int)
  {
    exists n :: WithinRounds(cap, flow, |VerticesOf(cap)|, n, rounds)
  }

  lemma BudgetStarts(cap: EdgeWeights)
    ensures OnBudget(cap, map[], 0)
  {
    assert SOURCE in VerticesOf(cap);
    NoRoundsYet(cap, map[], |VerticesOf(cap)|);
  }

  lemma BudgetHolds(cap: EdgeWeights, flow: EdgeWeights, rounds: int)
    requires OnBudget(cap, flow, rounds)
    ensures rounds <= (|VerticesOf(cap)| - 1) * |cap|
  {
    var n :| WithinRounds(cap, flow, |VerticesOf(cap)|, n, rounds);
    RoundsBounded(cap, flow, |VerticesOf(cap)|, n, rounds);
  }

  lemma BudgetGoesOn(cap: EdgeWeights, before: EdgeWeights, after: EdgeWeights, path: seq<Vertex>, height: Vertex -> int, rounds: int)
    requires OnBudget(cap, before, rounds) && ShortestPath(cap, before, path, height)
    requires Rerouted(cap, before, after, path) && exists u, w :: Saturated(cap, after, path, u, w)
    ensures OnBudget(cap, after, rounds + 1)
  {
    var n :| WithinRounds(cap, before, |VerticesOf(cap)|, n, rounds);
    var u, w :| Saturated(cap, after, path, u, w);
    OneMoreRound(cap, before, after, height, path, u, w, |VerticesOf(cap)|, n, rounds);
  }

  /** One augmentation along the path that was found. */
  method AugmentOnce(cap: EdgeWeights, before: EdgeWeights, parents: Predecessors, additional: Word, ghost total: nat, ghost rounds: int)
    returns (flow: EdgeWeights)
    requires OneWay(cap) && Feasible(cap, before, total) && Spells(cap, before, parents, additional) && OnBudget(cap, before, rounds)
    requires (forall e | e in cap && e.0 == SOURCE :: cap[e] < INFINITE) && CutCapacity(cap, {SOURCE}) < WORD
    ensures Feasible(cap, flow, total + additional) && total + additional < WORD && OnBudget(cap, flow, rounds + 1)
  {
    ghost var path, height :| Found(cap, before, parents, path, height, additional);
    flow := Augment(cap, before, parents, additional, path, total);
    BudgetGoesOn(cap, before, flow, path, height, rounds);
  }

  /** The flow equals the capacity of a closed cut, and no cut has less. */
  ghost predicate IsMaximum(cap: EdgeWeights, flow: EdgeWeights, total: int)
  {
    && !Reachable(cap, flow, SINK)
    && (exists S :: IsCut(S) && Closed(cap, flow, S) && CutCapacity(cap, S) == total)
    && (forall T | IsCut(T) :: total <= CutCapacity(cap, T))
  }

  /** One round: search, then augment if the sink was found. */
  method Round(adj: Adjacencies, cap: EdgeWeights, before: EdgeWeights, ghost total: nat, ghost rounds: int)
    returns (additional: Word, flow: EdgeWeights)
    requires Network(adj, cap) && Feasible(cap, before, total) && OnBudget(cap, before, rounds)
    ensures additional == 0 ==> flow == before && IsMaximum(cap, flow, total)
    ensures additional > 0 ==> Feasible(cap, flow, total + additional) && total + additional < WORD && OnBudget(cap, flow, rounds + 1)
  {
    var parents;
    additional, parents := FindAugmentingPath(adj, cap, before);
    if additional == 0 {
      flow := before;
      ClosedCutIsMinimum(cap, flow, total, parents.Keys);
    } else {
      flow := AugmentOnce(cap, before, parents, additional, total, rounds);
    }
  }

  /** Augments until the sink is out of reach. The word-sized total never wraps, and there are fewer augmentations than
      vertices times edges. */
  method MaxFlow(adj: Adjacencies, cap: EdgeWeights) returns (total: Word, flow: EdgeWeights, ghost rounds: nat)
    requires Network(adj, cap)
    ensures Feasible(cap, flow, total) && IsMaximum(cap, flow, total)
    ensures rounds <= (|VerticesOf(cap)| - 1) * |cap|
  {
    total, flow, rounds := 0, map[], 0;
    NoFlow(cap);
    BudgetStarts(cap);
    while true
      invariant Feasible(cap, flow, total) && OnBudget(cap, flow, rounds)
      decreases WORD - total
    {
      var additional;
      additional, flow := Round(adj, cap, flow, total, rounds);
      if additional == 0 {
        BudgetHolds(cap, flow, rounds);
        return;
      }
      total, rounds := WordAdd(total, additional), rounds + 1;
    }
  }

  // ----- minimum cut -----

  ghost predicate Frontier(cap: EdgeWeights, flow: EdgeWeights, reached: set<Vertex>, fringe: seq<Vertex>, scanned: set<Vertex>)
  {
    && SOURCE in reached
    && (forall v | v in reached :: Reachable(cap, flow, v))
    && (forall i | 0 <= i < |fringe| :: fringe[i] !in scanned)
    && (forall i, j | 0 <= i < j < |fringe| :: fringe[i] != fringe[j])
    && reached == scanned + (set v | v in fringe)
  }

  lemma Reach(cap: EdgeWeights, flow: EdgeWeights, reached: set<Vertex>, fringe: seq<Vertex>, scanned: set<Vertex>, v: Vertex, w: Vertex)
    requires Frontier(cap, flow, reached, fringe, scanned)
    requires v in reached && w !in reached && Residual(cap, flow, v, w) > 0
    ensures Frontier(cap, flow, reached + {w}, fringe + [w], scanned)
  {
    var p :| ResidualPath(cap, flow, p, v);
    assert (p + [w])[..|p|] == p;
    assert ResidualPath(cap, flow, p + [w], w);
  }

  lemma FrontierNext(cap: EdgeWeights, flow: EdgeWeights, reached: set<Vertex>, fringe: seq<Vertex>, scanned: set<Vertex>)
    requires Frontier(cap, flow, reached, fringe, scanned) && fringe != []
    ensures Frontier(cap, flow, reached, fringe[1..], scanned + {fringe[0]}) && fringe[0] in reached && fringe[0] !in scanned
  {
    assert forall v :: v in fringe <==> v == fringe[0] || v in fringe[1..];
  }

  /** One of the two passes of the second search: the residual neighbours of v among ws join the reached set. */
  method ReachFrom(cap: EdgeWeights, flow: EdgeWeights, v: Vertex, ws: seq<Vertex>, forward: bool,
                   reached0: set<Vertex>, fringe0: seq<Vertex>, ghost scanned: set<Vertex>)
    returns (reached: set<Vertex>, fringe: seq<Vertex>)
    requires forall w | w in ws :: if forward then (v, w) in cap else (w, v) in cap && (v, w) !in cap
    requires Frontier(cap, flow, reached0, fringe0, scanned) && v in reached0
    ensures Frontier(cap, flow, reached, fringe, scanned)
    ensures reached0 <= reached <= reached0 + (set w | w in ws)
    ensures forall w | w in ws && Residual(cap, flow, v, w) > 0 :: w in reached
  {
    reached, fringe := reached0, fringe0;
    for i := 0 to |ws|
      invariant Frontier(cap, flow, reached, fringe, scanned) && reached0 <= reached <= reached0 + (set w | w in ws)
      invariant forall w | w in ws[..i] && Residual(cap, flow, v, w) > 0 :: w in reached
    {
      var w := ws[i];
      assert w in ws && ws[..i + 1] == ws[..i] + [w];
      var residual;
      if forward {
        var totalCap, used := WeightOf(cap, (v, w)), WeightOf(flow, (v, w));
        residual := if totalCap == INFINITE then INFINITE else WordSub(totalCap, used);
      } else {
        residual := WeightOf(flow, (w, v));
      }
      assert residual == Residual(cap, flow, v, w);
      if w !in reached && residual > 0 {
        Reach(cap, flow, reached, fringe, scanned, v, w);
        reached, fringe := reached + {w}, fringe + [w];
      }
    }
    assert ws[..|ws|] == ws;
  }

  /** The residual neighbours of every scanned vertex are reached. */
  ghost predicate Swept(cap: EdgeWeights, flow: EdgeWeights, reached: set<Vertex>, scanned: set<Vertex>)
  {
    forall v, w | v in scanned && Residual(cap, flow, v, w) > 0 :: w in reached
  }

  /** Takes one vertex off the list and reaches its residual neighbours. */
  method ReachNext(adj: Adjacencies, rev: Adjacencies, cap: EdgeWeights, flow: EdgeWeights, reached0: set<Vertex>, fringe0: seq<Vertex>,
                   ghost V: set<Vertex>, ghost scanned: set<Vertex>)
    returns (reached: set<Vertex>, fringe: seq<Vertex>)
    requires Adjacent(adj, cap) && Reversed(adj, rev) && CoversVertices(cap, V) && fringe0 != []
    requires Frontier(cap, flow, reached0, fringe0, scanned) && reached0 <= V && Swept(cap, flow, reached0, scanned)
    ensures fringe0[0] in V && fringe0[0] !in scanned
    ensures Frontier(cap, flow, reached, fringe, scanned + {fringe0[0]}) && reached <= V && Swept(cap, flow, reached, scanned + {fringe0[0]})
  {
    var v := fringe0[0];
    FrontierNext(cap, flow, reached0, fringe0, scanned);
    NeighboursOf(adj, rev, cap, v, V);
    reached, fringe := ReachFrom(cap, flow, v, Neighbours(adj, v), true, reached0, fringe0[1..], scanned + {v});
    reached, fringe := ReachFrom(cap, flow, v, Neighbours(rev, v), false, reached, fringe, scanned + {v});
  }

  /** The worklist that collects the residual-reachable vertices. */
  method ResidualReach(adj: Adjacencies, cap: EdgeWeights, flow: EdgeWeights) returns (reached: set<Vertex>)
    requires Adjacent(adj, cap)
    ensures forall v: Vertex :: v in reached <==> Reachable(cap, flow, v)
    ensures Closed(cap, flow, reached) && SOURCE in reached
  {
    reached := {SOURCE};
    var rev := ReverseAdjacency(adj);
    var fringe := [SOURCE];
    ghost var scanned: set<Vertex> := {};
    ghost var V := AnyVertices(cap);
    assert ResidualPath(cap, flow, [SOURCE], SOURCE);
    while fringe != []
      invariant Frontier(cap, flow, reached, fringe, scanned) && reached <= V && Swept(cap, flow, reached, scanned)
      decreases V - scanned
    {
      ghost var v := fringe[0];
      reached, fringe := ReachNext(adj, rev, cap, flow, reached, fringe, V, scanned);
      assert v in V - scanned;
      scanned := scanned + {v};
    }
    forall v | Reachable(cap, flow, v) ensures v in reached {
      var p :| ResidualPath(cap, flow, p, v);
      ClosedSetHoldsPath(cap, flow, reached, p, v);
    }
  }

  /** v is an endpoint of an edge with exactly one end in S, whichever way the edge runs. */
  ghost predicate OnBoundary(cap: EdgeWeights, S: set<Vertex>, v: Vertex)
  {
    exists w: Vertex :: ((v, w) in cap || (w, v) in cap) && (v in S <==> w !in S)
  }

  ghost predicate MinimumCut(cap: EdgeWeights, S: set<Vertex>)
  {
    IsCut(S) && forall T | IsCut(T) :: CutCapacity(cap, S) <= CutCapacity(cap, T)
  }

  /** Lists the endpoints of every edge across the residual-reachable set of a maximum flow. */
  method ComputeMinCut(adj: Adjacencies, cap: EdgeWeights)
    returns (minCut: seq<Vertex>, ghost reached: set<Vertex>, ghost flow: EdgeWeights, ghost maxFlow: nat)
    requires Network(adj, cap)
    ensures forall v: Vertex :: v in minCut <==> OnBoundary(cap, reached, v)
    ensures exists S :: MinimumCut(cap, S) && forall v: Vertex :: v in minCut <==> OnBoundary(cap, S, v)
    ensures Feasible(cap, flow, maxFlow)
    ensures IsCut(reached) && Closed(cap, flow, reached)
    ensures forall v: Vertex :: v in reached <==> Reachable(cap, flow, v)
    ensures maxFlow == CutCapacity(cap, reached)
    ensures forall T | IsCut(T) :: CutCapacity(cap, reached) <= CutCapacity(cap, T)
  {
    var total, f, _ := MaxFlow(adj, cap);
    var R := ResidualReach(adj, cap, f);
    ClosedCutIsMinimum(cap, f, total, R);
    minCut := CutVertices(adj, R);
    reached, flow, maxFlow := R, f, total;
    assert Network(adj, cap);
    forall v: Vertex ensures v in minCut <==> OnBoundary(cap, reached, v) {
      if w: Vertex :| ((v, w) in cap || (w, v) in cap) && (v in R <==> w !in R) {
        if (v, w) in cap { assert CutEnd(adj, R, v, w, v); } else { assert CutEnd(adj, R, w, v, v); }
      }
      if u: Vertex, w: Vertex :| CutEnd(adj, R, u, w, v) {
        assert (u, w) in cap;
      }
    }
    assert MinimumCut(cap, R);
  }

  ghost predicate Across(adj: Adjacencies, S: set<Vertex>, v: Vertex, w: Vertex)
  {
    w in Neighbours(adj, v) && (v in S <==> w !in S)
  }

  ghost predicate CutEnd(adj: Adjacencies, S: set<Vertex>, v: Vertex, w: Vertex, x: Vertex)
  {
    Across(adj, S, v, w) && (x == v || x == w)
  }

  /** The list-building loop at the end of the cut computation. */
  method CutVertices(adj: Adjacencies, reached: set<Vertex>) returns (cut: seq<Vertex>)
    ensures forall x: Vertex :: x in cut <==> exists v: Vertex, w: Vertex :: CutEnd(adj, reached, v, w, x)
  {
    cut := [];
    var todo := adj.Keys;
    while todo != {}
      invariant todo <= adj.Keys
      invariant forall x: Vertex :: x in cut ==> exists v: Vertex, w: Vertex :: CutEnd(adj, reached, v, w, x)
      invariant forall v: Vertex, w: Vertex | v !in todo && Across(adj, reached, v, w) :: v in cut && w in cut
      decreases todo
    {
      var v := Pick(todo);
      for i := 0 to |adj[v]|
        invariant forall x: Vertex :: x in cut ==> exists v: Vertex, w: Vertex :: CutEnd(adj, reached, v, w, x)
        invariant forall u: Vertex, w: Vertex | u !in todo && Across(adj, reached, u, w) :: u in cut && w in cut
        invariant forall w | w in adj[v][..i] && Across(adj, reached, v, w) :: v in cut && w in cut
      {
        var w := adj[v][i];
        assert adj[v][..i + 1] == adj[v][..i] + [w];
        if (v in reached && w !in reached) || (v !in reached && w in reached) {
          assert CutEnd(adj, reached, v, w, v) && CutEnd(adj, reached, v, w, w);
          cut := cut + [v, w];
        }
      }
      assert adj[v][..|adj[v]|] == adj[v];
      todo := todo - {v};
    }
  }
}
