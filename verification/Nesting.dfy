/** Checking that the begin/end events of the profiler nest properly on every path of a function. */
module Nesting {
  import opened FiniteSums
  import opened EventWords

  type Block = int

  /** A function: its blocks with their events and successors, and those that end in a return. */
  datatype Cfg = Cfg(entry: Block, blocks: set<Block>, events: map<Block, seq<Event>>, succs: map<Block, seq<Block>>, exits: set<Block>)
  {
    function EventsOf(b: Block): (r: seq<Event>)
      ensures if b in events then (b, r) in events.Items else r == []
    {
      if b in events then events[b] else []
    }

    function SuccsOf(b: Block): (r: seq<Block>)
      ensures if b in succs then (b, r) in succs.Items else r == []
    {
      if b in succs then succs[b] else []
    }

    ghost predicate Valid()
    {
      && entry in blocks
      && (forall b, s | b in blocks && s in SuccsOf(b) :: s in blocks)
      && (forall b | b in exits :: SuccsOf(b) == [])
    }

    ghost predicate IsPath(p: seq<Block>)
    {
      && p != []
      && if |p| == 1 then p[0] == entry
         else p[|p| - 1] in SuccsOf(p[|p| - 2]) && IsPath(p[..|p| - 1])
    }
  }

  /** The stack with which a path arrives at its last block. */
  ghost function Arrival(cfg: Cfg, p: seq<Block>): Outcome
  {
    if |p| < 2 then Nested([])
    else
      var before := Arrival(cfg, p[..|p| - 1]);
      if before.Nested? then Run(before.ctx, cfg.EventsOf(p[|p| - 2])) else before
  }

  /** Entered with stack c, block b nests properly and, if it returns, leaves an empty stack. */
  predicate BlockNests(cfg: Cfg, b: Block, c: Context)
  {
    var after := Run(c, cfg.EventsOf(b));
    after.Nested? && (b in cfg.exits ==> after.ctx == [])
  }

  ghost predicate PathNests(cfg: Cfg, p: seq<Block>)
    requires p != []
  {
    Arrival(cfg, p).Nested? && BlockNests(cfg, p[|p| - 1], Arrival(cfg, p).ctx)
  }

  /** On every path of any length events nest and returns find an empty stack,
      and all paths to a block arrive with the same stack. */
  ghost predicate RunsNested(cfg: Cfg)
  {
    && (forall p | cfg.IsPath(p) :: PathNests(cfg, p))
    && (forall p, q | cfg.IsPath(p) && cfg.IsPath(q) && p[|p| - 1] == q[|q| - 1] :: Arrival(cfg, p) == Arrival(cfg, q))
  }

  /** The path comes to a look at the top of an empty stack in its last block. */
  ghost predicate RunUnderflows(cfg: Cfg, p: seq<Block>)
  {
    cfg.IsPath(p) && Arrival(cfg, p).Nested? && Run(Arrival(cfg, p).ctx, cfg.EventsOf(p[|p| - 1])).Underflow?
  }

  /** The path comes to a mismatched end, or to a return with a stack that is not empty, in its last block. */
  ghost predicate RunViolates(cfg: Cfg, p: seq<Block>)
  {
    && cfg.IsPath(p) && Arrival(cfg, p).Nested?
    && var after := Run(Arrival(cfg, p).ctx, cfg.EventsOf(p[|p| - 1]));
       after.Mismatch? || (after.Nested? && p[|p| - 1] in cfg.exits && after.ctx != [])
  }

  ghost predicate RunsDisagree(cfg: Cfg, p: seq<Block>, q: seq<Block>)
  {
    && cfg.IsPath(p) && cfg.IsPath(q) && p[|p| - 1] == q[|q| - 1]
    && Arrival(cfg, p).Nested? && Arrival(cfg, q).Nested? && Arrival(cfg, p) != Arrival(cfg, q)
  }

  ghost predicate RunViolated(cfg: Cfg)
  {
    (exists p :: RunViolates(cfg, p)) || (exists p, q :: RunsDisagree(cfg, p, q))
  }

  type Fringe = map<seq<Block>, Context>
  type Visited = map<Block, Context>

  ghost predicate Arrives(cfg: Cfg, p: seq<Block>, b: Block, c: Context)
  {
    cfg.IsPath(p) && p[|p| - 1] == b && Arrival(cfg, p) == Nested(c)
  }

  /** Some growing path is about to enter b with stack c. */
  ghost predicate Growing(fringe: Fringe, b: Block, c: Context)
  {
    exists p :: p in fringe && p != [] && p[|p| - 1] == b && fringe[p] == c
  }

  /** b has been, or is about to be, entered with stack c. */
  ghost predicate Handled(fringe: Fringe, visited: Visited, b: Block, c: Context)
  {
    (b in visited && visited[b] == c) || Growing(fringe, b, c)
  }

  ghost predicate BlockDone(cfg: Cfg, fringe: Fringe, visited: Visited, b: Block, c: Context)
  {
    && BlockNests(cfg, b, c)
    && forall s | s in cfg.SuccsOf(b) :: Handled(fringe, visited, s, Run(c, cfg.EventsOf(b)).ctx)
  }

  ghost predicate Sound(cfg: Cfg, fringe: Fringe, visited: Visited)
  {
    && (forall p | p in fringe :: p != [] && Arrives(cfg, p, p[|p| - 1], fringe[p]))
    && (forall b | b in visited :: exists p :: Arrives(cfg, p, b, visited[b]))
  }

  ghost predicate Complete(cfg: Cfg, fringe: Fringe, visited: Visited)
  {
    && Handled(fringe, visited, cfg.entry, [])
    && (forall b | b in visited :: BlockDone(cfg, fringe, visited, b, visited[b]))
  }

  lemma SuccessorInBlocks(cfg: Cfg, b: Block, s: Block)
    requires cfg.Valid() && b in cfg.blocks && s in cfg.SuccsOf(b)
    ensures s in cfg.blocks
  {
  }

  lemma {:induction false} PathInBlocks(cfg: Cfg, p: seq<Block>)
    requires cfg.Valid() && cfg.IsPath(p)
    ensures p[|p| - 1] in cfg.blocks
    decreases |p|
  {
    if |p| > 1 {
      var q := p[..|p| - 1];
      PathInBlocks(cfg, q);
      SuccessorInBlocks(cfg, q[|q| - 1], p[|p| - 1]);
    }
  }

  /** With nothing left to grow, every path arrives where and how the visited map says. */
  lemma {:induction false} AllPathsRecorded(cfg: Cfg, visited: Visited, p: seq<Block>)
    requires Complete(cfg, map[], visited) && cfg.IsPath(p)
    ensures p[|p| - 1] in visited && Arrival(cfg, p) == Nested(visited[p[|p| - 1]])
    decreases |p|
  {
    if |p| > 1 {
      var q := p[..|p| - 1];
      AllPathsRecorded(cfg, visited, q);
      var b := q[|q| - 1];
      assert b == p[|p| - 2] && p[|p| - 1] in cfg.SuccsOf(b);
      assert BlockDone(cfg, map[], visited, b, visited[b]);
      assert Handled(map[], visited, p[|p| - 1], Run(visited[b], cfg.EventsOf(b)).ctx);
    }
  }

  lemma NothingViolated(cfg: Cfg, visited: Visited)
    requires Complete(cfg, map[], visited)
    ensures RunsNested(cfg)
  {
    forall p | cfg.IsPath(p) ensures PathNests(cfg, p) {
      AllPathsRecorded(cfg, visited, p);
      assert BlockDone(cfg, map[], visited, p[|p| - 1], visited[p[|p| - 1]]);
    }
    forall p, q | cfg.IsPath(p) && cfg.IsPath(q) && p[|p| - 1] == q[|q| - 1] ensures Arrival(cfg, p) == Arrival(cfg, q) {
      AllPathsRecorded(cfg, visited, p);
      AllPathsRecorded(cfg, visited, q);
    }
  }

  lemma {:induction false} ExtendPath(cfg: Cfg, p: seq<Block>, b: Block, c: Context, s: Block)
    requires Arrives(cfg, p, b, c) && s in cfg.SuccsOf(b) && Run(c, cfg.EventsOf(b)).Nested?
    ensures Arrives(cfg, p + [s], s, Run(c, cfg.EventsOf(b)).ctx)
  {
    assert (p + [s])[..|p|] == p;
  }

  /** A path to an already visited block may be dropped. */
  lemma DropPath(cfg: Cfg, fringe: Fringe, visited: Visited, p: seq<Block>)
    requires Sound(cfg, fringe, visited) && Complete(cfg, fringe, visited)
    requires p in fringe && p[|p| - 1] in visited && visited[p[|p| - 1]] == fringe[p]
    ensures Sound(cfg, fringe - {p}, visited) && Complete(cfg, fringe - {p}, visited)
  {
    HandledWithout(fringe, visited, p, visited);
    forall b | b in visited ensures BlockDone(cfg, fringe - {p}, visited, b, visited[b]) {
      assert BlockDone(cfg, fringe, visited, b, visited[b]);
    }
  }

  /** Recording the end of p as visited takes over what p stood for. */
  lemma HandledWithout(fringe: Fringe, visited: Visited, p: seq<Block>, visited': Visited)
    requires p in fringe && p != [] && p[|p| - 1] in visited' && visited'[p[|p| - 1]] == fringe[p]
    requires forall b | b in visited :: b in visited' && visited'[b] == visited[b]
    ensures forall b, c | Handled(fringe, visited, b, c) :: Handled(fringe - {p}, visited', b, c)
  {
    forall b, c | Handled(fringe, visited, b, c) ensures Handled(fringe - {p}, visited', b, c) {
      if !(b in visited && visited[b] == c) {
        var q :| q in fringe && q != [] && q[|q| - 1] == b && fringe[q] == c;
        if q != p {
          assert q in fringe - {p};
        }
      }
    }
  }

  /** Adding a path whose stack is the right one keeps what is handled. */
  lemma HandledWith(fringe: Fringe, visited: Visited, p: seq<Block>, c: Context)
    requires p != [] && (p in fringe ==> fringe[p] == c)
    ensures forall b, d | Handled(fringe, visited, b, d) :: Handled(fringe[p := c], visited, b, d)
    ensures Handled(fringe[p := c], visited, p[|p| - 1], c)
  {
    forall b, d | Growing(fringe, b, d) ensures Growing(fringe[p := c], b, d) {
      var q :| q in fringe && q != [] && q[|q| - 1] == b && fringe[q] == d;
      assert q in fringe[p := c];
    }
    assert p in fringe[p := c];
  }

  /** The fringe with `path` grown by each of the successors. */
  ghost function Grown(fringe: Fringe, path: seq<Block>, succs: seq<Block>, ctx: Context): Fringe
  {
    if succs == [] then fringe
    else Grown(fringe, path, succs[..|succs| - 1], ctx)[path + [succs[|succs| - 1]] := ctx]
  }

  /** The loop that adds the successors of a block. */
  method GrowPaths(fringe0: Fringe, path: seq<Block>, succs: seq<Block>, ctx: Context) returns (fringe: Fringe)
    ensures fringe == Grown(fringe0, path, succs, ctx)
  {
    fringe := fringe0;
    for j := 0 to |succs|
      invariant fringe == Grown(fringe0, path, succs[..j], ctx)
    {
      assert succs[..j + 1][..j] == succs[..j];
      fringe := fringe[path + [succs[j]] := ctx];
    }
    assert succs[..|succs|] == succs;
  }

  lemma GrowOnce(cfg: Cfg, fringe: Fringe, path: seq<Block>, s: Block, visited: Visited, c: Context, ctx: Context)
    requires path != [] && Arrives(cfg, path, path[|path| - 1], c) && Run(c, cfg.EventsOf(path[|path| - 1])) == Nested(ctx)
    requires Sound(cfg, fringe, visited) && s in cfg.SuccsOf(path[|path| - 1])
    ensures Sound(cfg, fringe[path + [s] := ctx], visited)
    ensures forall b, d | Handled(fringe, visited, b, d) :: Handled(fringe[path + [s] := ctx], visited, b, d)
    ensures Handled(fringe[path + [s] := ctx], visited, s, ctx)
  {
    ExtendPath(cfg, path, path[|path| - 1], c, s);
    assert path + [s] in fringe ==> Arrives(cfg, path + [s], s, fringe[path + [s]]);
    HandledWith(fringe, visited, path + [s], ctx);
  }

  /** Growing a path keeps the fringe sound, and the successors are handled with the stack after the block. */
  lemma {:induction false} GrownIsSound(cfg: Cfg, fringe: Fringe, path: seq<Block>, succs: seq<Block>, visited: Visited, c: Context, ctx: Context)
    requires path != [] && Arrives(cfg, path, path[|path| - 1], c) && Run(c, cfg.EventsOf(path[|path| - 1])) == Nested(ctx)
    requires Sound(cfg, fringe, visited) && forall k | 0 <= k < |succs| :: succs[k] in cfg.SuccsOf(path[|path| - 1])
    ensures Sound(cfg, Grown(fringe, path, succs, ctx), visited)
    ensures forall b, d | Handled(fringe, visited, b, d) :: Handled(Grown(fringe, path, succs, ctx), visited, b, d)
    ensures forall k | 0 <= k < |succs| :: Handled(Grown(fringe, path, succs, ctx), visited, succs[k], ctx)
    decreases |succs|
  {
    if succs != [] {
      var less, s := succs[..|succs| - 1], succs[|succs| - 1];
      assert succs == less + [s];
      GrownIsSound(cfg, fringe, path, less, visited, c, ctx);
      GrowOnce(cfg, Grown(fringe, path, less, ctx), path, s, visited, c, ctx);
    }
  }

  /** Visiting the end of p for the first time. */
  lemma VisitBlock(cfg: Cfg, fringe: Fringe, visited: Visited, p: seq<Block>, c: Context)
    requires Sound(cfg, fringe, visited) && Complete(cfg, fringe, visited)
    requires p in fringe && c == fringe[p] && p[|p| - 1] !in visited
    ensures var b := p[|p| - 1];
            && Sound(cfg, fringe - {p}, visited[b := c])
            && Arrives(cfg, p, b, c)
            && Handled(fringe - {p}, visited[b := c], cfg.entry, [])
            && forall x | x in visited :: BlockDone(cfg, fringe - {p}, visited[b := c], x, visited[x])
  {
    var b := p[|p| - 1];
    var visited' := visited[b := c];
    HandledWithout(fringe, visited, p, visited');
    forall x | x in visited ensures BlockDone(cfg, fringe - {p}, visited', x, visited[x]) {
      assert BlockDone(cfg, fringe, visited, x, visited[x]);
    }
    forall x | x in visited' ensures exists q :: Arrives(cfg, q, x, visited'[x]) {
      if x == b {
        assert Arrives(cfg, p, b, c);
      } else {
        var q :| Arrives(cfg, q, x, visited[x]);
      }
    }
  }

  lemma CompleteAfterGrowth(cfg: Cfg, fringe: Fringe, fringe': Fringe, visited: Visited, b: Block, c: Context)
    requires b in visited && visited[b] == c && BlockNests(cfg, b, c)
    requires Handled(fringe, visited, cfg.entry, [])
    requires forall x | x in visited && x != b :: BlockDone(cfg, fringe, visited, x, visited[x])
    requires forall x, d | Handled(fringe, visited, x, d) :: Handled(fringe', visited, x, d)
    requires forall s | s in cfg.SuccsOf(b) :: Handled(fringe', visited, s, Run(c, cfg.EventsOf(b)).ctx)
    ensures Complete(cfg, fringe', visited)
  {
    forall x | x in visited ensures BlockDone(cfg, fringe', visited, x, visited[x]) {
      if x != b {
        assert BlockDone(cfg, fringe, visited, x, visited[x]);
      }
    }
  }

  // ----- the traversal, in any order -----

  datatype State = State(fringe: Fringe, visited: Visited)

  ghost function Start(cfg: Cfg): State
  {
    State(map[[cfg.entry] := []], map[])
  }

  /** Taking `path` from the fringe raises no violation and looks at no empty stack. */
  ghost predicate CanTake(cfg: Cfg, s: State, path: seq<Block>)
  {
    && path in s.fringe && path != []
    && var b := path[|path| - 1];
       if b in s.visited then s.visited[b] == s.fringe[path] else BlockNests(cfg, b, s.fringe[path])
  }

  ghost function Take(cfg: Cfg, s: State, path: seq<Block>): State
    requires CanTake(cfg, s, path)
  {
    var b := path[|path| - 1];
    if b in s.visited then s.(fringe := s.fringe - {path})
    else State(Grown(s.fringe - {path}, path, cfg.SuccsOf(b), Run(s.fringe[path], cfg.EventsOf(b)).ctx), s.visited[b := s.fringe[path]])
  }

  /** The paths can be taken one after the other from s and lead to s'. */
  ghost predicate Leads(cfg: Cfg, s: State, order: seq<seq<Block>>, s': State)
    decreases |order|
  {
    if order == [] then s == s' else CanTake(cfg, s, order[0]) && Leads(cfg, Take(cfg, s, order[0]), order[1..], s')
  }

  ghost predicate Reached(cfg: Cfg, s: State)
  {
    exists order :: Leads(cfg, Start(cfg), order, s)
  }

  lemma {:induction false} LeadsOn(cfg: Cfg, s: State, order: seq<seq<Block>>, s': State, path: seq<Block>)
    requires Leads(cfg, s, order, s') && CanTake(cfg, s', path)
    ensures Leads(cfg, s, order + [path], Take(cfg, s', path))
    decreases |order|
  {
    if order == [] {
      assert Leads(cfg, Take(cfg, s, path), [], Take(cfg, s', path));
    } else {
      LeadsOn(cfg, Take(cfg, s, order[0]), order[1..], s', path);
      assert (order + [path])[1..] == order[1..] + [path];
    }
  }

  lemma TakeReaches(cfg: Cfg, s: State, path: seq<Block>)
    requires Reached(cfg, s) && CanTake(cfg, s, path)
    ensures Reached(cfg, Take(cfg, s, path))
  {
    var order :| Leads(cfg, Start(cfg), order, s);
    LeadsOn(cfg, Start(cfg), order, s, path);
  }

  lemma StartReached(cfg: Cfg)
    ensures Reached(cfg, Start(cfg))
  {
    assert Leads(cfg, Start(cfg), [], Start(cfg));
  }

  /** The traversal is about to look at the top of an empty stack. */
  ghost predicate ReadsEmpty(cfg: Cfg, s: State, path: seq<Block>)
  {
    && path in s.fringe && path != [] && path[|path| - 1] !in s.visited
    && Run(s.fringe[path], cfg.EventsOf(path[|path| - 1])).Underflow?
  }

  /** All but the last block of a growing path are visited, and they are different. */
  ghost predicate GrowsSimply(s: State)
  {
    forall p | p in s.fringe :: p != [] && SimplyVisited(s.visited, p[..|p| - 1])
  }

  ghost predicate SimplyVisited(visited: Visited, p: seq<Block>)
  {
    Distinct(p) && forall b | b in p :: b in visited
  }

  lemma SimplyLonger(visited: Visited, p: seq<Block>)
    requires p != [] && SimplyVisited(visited, p[..|p| - 1]) && p[|p| - 1] !in visited
    ensures Distinct(p)
  {
    forall i, j | 0 <= i < j < |p| ensures p[i] != p[j] {
      assert p[i] == p[..|p| - 1][i] && p[i] in p[..|p| - 1];
    }
  }

  lemma {:induction false} GrownSimply(fringe: Fringe, path: seq<Block>, succs: seq<Block>, ctx: Context, visited: Visited)
    requires path != [] && GrowsSimply(State(fringe, visited)) && SimplyVisited(visited, path)
    ensures GrowsSimply(State(Grown(fringe, path, succs, ctx), visited))
    decreases |succs|
  {
    if succs != [] {
      GrownSimply(fringe, path, succs[..|succs| - 1], ctx, visited);
      assert (path + [succs[|succs| - 1]])[..|path|] == path;
    }
  }

  lemma TakeIsSimple(cfg: Cfg, s: State, path: seq<Block>)
    requires GrowsSimply(s) && CanTake(cfg, s, path)
    ensures GrowsSimply(Take(cfg, s, path))
  {
    var b, c := path[|path| - 1], s.fringe[path];
    if b !in s.visited {
      var fringe, visited := s.fringe - {path}, s.visited[b := c];
      SimplyLonger(s.visited, path);
      assert path == path[..|path| - 1] + [b];
      forall x | x in path ensures x in visited {
        assert x in path[..|path| - 1] || x == b;
      }
      forall p | p in fringe ensures p != [] && SimplyVisited(visited, p[..|p| - 1]) {
        assert p in s.fringe;
      }
      GrownSimply(fringe, path, cfg.SuccsOf(b), Run(c, cfg.EventsOf(b)).ctx, visited);
    }
  }

  lemma TakeIsSound(cfg: Cfg, s: State, path: seq<Block>)
    requires Sound(cfg, s.fringe, s.visited) && CanTake(cfg, s, path)
    ensures Sound(cfg, Take(cfg, s, path).fringe, Take(cfg, s, path).visited)
  {
    var b, c := path[|path| - 1], s.fringe[path];
    if b !in s.visited {
      VisitIsSound(cfg, s.fringe, s.visited, path);
      GrownIsSound(cfg, s.fringe - {path}, path, cfg.SuccsOf(b), s.visited[b := c], c, Run(c, cfg.EventsOf(b)).ctx);
    }
  }

  lemma VisitIsSound(cfg: Cfg, fringe: Fringe, visited: Visited, p: seq<Block>)
    requires Sound(cfg, fringe, visited) && p in fringe
    ensures Arrives(cfg, p, p[|p| - 1], fringe[p]) && Sound(cfg, fringe - {p}, visited[p[|p| - 1] := fringe[p]])
  {
    var b := p[|p| - 1];
    var visited' := visited[b := fringe[p]];
    forall x | x in visited' ensures exists q :: Arrives(cfg, q, x, visited'[x]) {
      if x == b {
        assert Arrives(cfg, p, b, fringe[p]);
      } else {
        var q :| Arrives(cfg, q, x, visited[x]);
      }
    }
  }

  lemma {:induction false} LeadsIsSound(cfg: Cfg, s: State, order: seq<seq<Block>>, s': State)
    requires Leads(cfg, s, order, s') && Sound(cfg, s.fringe, s.visited) && GrowsSimply(s)
    ensures Sound(cfg, s'.fringe, s'.visited) && GrowsSimply(s')
    decreases |order|
  {
    if order != [] {
      TakeIsSound(cfg, s, order[0]);
      TakeIsSimple(cfg, s, order[0]);
      LeadsIsSound(cfg, Take(cfg, s, order[0]), order[1..], s');
    }
  }

  lemma ReadsEmptyOnSimplePath(cfg: Cfg, s: State, path: seq<Block>)
    requires Reached(cfg, s) && ReadsEmpty(cfg, s, path)
    ensures Distinct(path) && RunUnderflows(cfg, path)
  {
    var order :| Leads(cfg, Start(cfg), order, s);
    StartSound(cfg);
    LeadsIsSound(cfg, Start(cfg), order, s);
    assert Arrives(cfg, path, path[|path| - 1], s.fringe[path]);
    SimplyLonger(s.visited, path);
  }

  lemma {:induction false} GrownHolds(fringe: Fringe, path: seq<Block>, succs: seq<Block>, ctx: Context, s: Block)
    requires s in succs
    ensures path + [s] in Grown(fringe, path, succs, ctx) && Grown(fringe, path, succs, ctx)[path + [s]] == ctx
    decreases |succs|
  {
    var last := succs[|succs| - 1];
    if s != last {
      GrownHolds(fringe, path, succs[..|succs| - 1], ctx, s);
      assert (path + [s])[|path|] != (path + [last])[|path|];
    }
  }

  /** Taking the prefixes of a simple path in order leads to the path itself. */
  lemma {:induction false} WalkSimplePath(cfg: Cfg, p: seq<Block>) returns (s: State)
    requires cfg.Valid() && cfg.IsPath(p) && Distinct(p) && Arrival(cfg, p).Nested?
    ensures Reached(cfg, s) && p in s.fringe && s.fringe[p] == Arrival(cfg, p).ctx
    ensures forall b | b in s.visited :: b in p[..|p| - 1]
    decreases |p|
  {
    if |p| == 1 {
      StartReached(cfg);
      s := Start(cfg);
      assert p == [cfg.entry];
    } else {
      var q := p[..|p| - 1];
      var b := q[|q| - 1];
      var s0 := WalkSimplePath(cfg, q);
      assert b !in q[..|q| - 1];
      assert CanTake(cfg, s0, q);
      TakeReaches(cfg, s0, q);
      s := Take(cfg, s0, q);
      assert p == q + [p[|p| - 1]] && q == q[..|q| - 1] + [b];
      GrownHolds(s0.fringe - {q}, q, cfg.SuccsOf(b), Run(s0.fringe[q], cfg.EventsOf(b)).ctx, p[|p| - 1]);
    }
  }

  ghost predicate MayReadEmpty(cfg: Cfg)
  {
    exists s, p :: Reached(cfg, s) && ReadsEmpty(cfg, s, p)
  }

  ghost predicate SimpleRunUnderflows(cfg: Cfg)
  {
    exists p :: Distinct(p) && RunUnderflows(cfg, p)
  }

  lemma UndefinedRunIff(cfg: Cfg)
    requires cfg.Valid()
    ensures MayReadEmpty(cfg) <==> SimpleRunUnderflows(cfg)
  {
    if s, p :| Reached(cfg, s) && ReadsEmpty(cfg, s, p) {
      ReadsEmptyOnSimplePath(cfg, s, p);
    }
    if p :| Distinct(p) && RunUnderflows(cfg, p) {
      var s := WalkSimplePath(cfg, p);
      assert p == p[..|p| - 1] + [p[|p| - 1]];
      assert ReadsEmpty(cfg, s, p);
    }
  }

  // ----- the same in words -----

  /** The events along a path, its last block included. */
  ghost function Word(cfg: Cfg, p: seq<Block>): seq<Event>
  {
    if p == [] then [] else Word(cfg, p[..|p| - 1]) + cfg.EventsOf(p[|p| - 1])
  }

  ghost function Front(p: seq<Block>): seq<Block>
  {
    if p == [] then [] else p[..|p| - 1]
  }

  lemma {:induction false} ArrivalRuns(cfg: Cfg, p: seq<Block>)
    requires p != []
    ensures Arrival(cfg, p) == Run([], Word(cfg, Front(p)))
    ensures Run([], Word(cfg, p)) == if Arrival(cfg, p).Nested? then Run(Arrival(cfg, p).ctx, cfg.EventsOf(p[|p| - 1])) else Arrival(cfg, p)
    decreases |p|
  {
    if |p| > 1 {
      ArrivalRuns(cfg, Front(p));
    }
    RunSplit([], Word(cfg, Front(p)), cfg.EventsOf(p[|p| - 1]));
  }

  /** All ends on the path close the begin that was open last, and a return leaves none open. */
  ghost predicate NestedPath(cfg: Cfg, p: seq<Block>)
    requires p != []
  {
    && (exists ctx :: Leaves(Word(cfg, p), ctx))
    && (p[|p| - 1] in cfg.exits ==> Balanced(Word(cfg, p)))
  }

  /** The two words leave the same begins open. */
  ghost predicate SameOpen(a: seq<Event>, b: seq<Event>)
  {
    forall ctx :: Leaves(a, ctx) <==> Leaves(b, ctx)
  }

  /** On every path of any length events nest and returns leave nothing open, and all paths to a block
      arrive with the same begins open. */
  ghost predicate WellNested(cfg: Cfg)
  {
    && (forall p | cfg.IsPath(p) :: NestedPath(cfg, p))
    && (forall p, q | cfg.IsPath(p) && cfg.IsPath(q) && p[|p| - 1] == q[|q| - 1] :: SameOpen(Word(cfg, Front(p)), Word(cfg, Front(q))))
  }

  lemma NestedPathIff(cfg: Cfg, p: seq<Block>)
    requires p != []
    ensures NestedPath(cfg, p) <==> PathNests(cfg, p)
  {
    ArrivalRuns(cfg, p);
    RunIff(Word(cfg, p));
    BalancedIff(Word(cfg, p));
    if PathNests(cfg, p) {
      assert Leaves(Word(cfg, p), Run([], Word(cfg, p)).ctx);
    }
  }

  lemma SameOpenIff(cfg: Cfg, p: seq<Block>, q: seq<Block>)
    requires p != [] && q != [] && Arrival(cfg, p).Nested? && Arrival(cfg, q).Nested?
    ensures SameOpen(Word(cfg, Front(p)), Word(cfg, Front(q))) <==> Arrival(cfg, p) == Arrival(cfg, q)
  {
    ArrivalRuns(cfg, p);
    ArrivalRuns(cfg, q);
    RunIff(Word(cfg, Front(p)));
    RunIff(Word(cfg, Front(q)));
    if SameOpen(Word(cfg, Front(p)), Word(cfg, Front(q))) {
      assert Leaves(Word(cfg, Front(p)), Arrival(cfg, p).ctx);
    }
  }

  lemma WellNestedIff(cfg: Cfg)
    ensures WellNested(cfg) <==> RunsNested(cfg)
  {
    forall p | cfg.IsPath(p) ensures NestedPath(cfg, p) <==> PathNests(cfg, p) {
      NestedPathIff(cfg, p);
    }
    if forall p | cfg.IsPath(p) :: PathNests(cfg, p) {
      forall p, q | cfg.IsPath(p) && cfg.IsPath(q) && p[|p| - 1] == q[|q| - 1]
        ensures SameOpen(Word(cfg, Front(p)), Word(cfg, Front(q))) <==> Arrival(cfg, p) == Arrival(cfg, q)
      {
        assert PathNests(cfg, p) && PathNests(cfg, q);
        SameOpenIff(cfg, p, q);
      }
    }
  }

  /** The path ends what nobody began. */
  ghost predicate PathUnderflows(cfg: Cfg, p: seq<Block>)
  {
    cfg.IsPath(p) && exists k :: StrayEnd(Word(cfg, p), k)
  }

  ghost predicate SimplePathUnderflows(cfg: Cfg)
  {
    exists p :: Distinct(p) && PathUnderflows(cfg, p)
  }

  /** The path has a wrong end, or returns with something open. */
  ghost predicate PathViolates(cfg: Cfg, p: seq<Block>)
  {
    && cfg.IsPath(p)
    && ((exists k, ctx :: WrongEnd(Word(cfg, p), k, ctx)) || (p[|p| - 1] in cfg.exits && exists ctx :: ctx != [] && Leaves(Word(cfg, p), ctx)))
  }

  ghost predicate PathsDisagree(cfg: Cfg, p: seq<Block>, q: seq<Block>)
  {
    cfg.IsPath(p) && cfg.IsPath(q) && p[|p| - 1] == q[|q| - 1] && !SameOpen(Word(cfg, Front(p)), Word(cfg, Front(q)))
  }

  ghost predicate Violated(cfg: Cfg)
  {
    (exists p :: PathViolates(cfg, p)) || (exists p, q :: PathsDisagree(cfg, p, q))
  }

  lemma ViolatedInWords(cfg: Cfg)
    requires RunViolated(cfg)
    ensures Violated(cfg)
  {
    if p :| RunViolates(cfg, p) {
      ArrivalRuns(cfg, p);
      RunIff(Word(cfg, p));
      var after := Run([], Word(cfg, p));
      assert after.Nested? ==> Leaves(Word(cfg, p), after.ctx);
      assert PathViolates(cfg, p);
    } else {
      var p, q :| RunsDisagree(cfg, p, q);
      SameOpenIff(cfg, p, q);
      assert PathsDisagree(cfg, p, q);
    }
  }

  /** The shortest part of the path that ends what nobody began does so in its last block. */
  lemma {:induction false} FirstUnderflow(cfg: Cfg, p: seq<Block>) returns (q: seq<Block>)
    requires cfg.IsPath(p) && Distinct(p) && Run([], Word(cfg, p)) == Underflow
    ensures Distinct(q) && RunUnderflows(cfg, q)
    decreases |p|
  {
    ArrivalRuns(cfg, p);
    if Arrival(cfg, p).Nested? {
      q := p;
    } else {
      q := FirstUnderflow(cfg, Front(p));
    }
  }

  lemma UnderflowInWords(cfg: Cfg)
    ensures SimplePathUnderflows(cfg) <==> SimpleRunUnderflows(cfg)
  {
    if p :| Distinct(p) && PathUnderflows(cfg, p) {
      RunIff(Word(cfg, p));
      var q := FirstUnderflow(cfg, p);
    }
    if p :| Distinct(p) && RunUnderflows(cfg, p) {
      ArrivalRuns(cfg, p);
      RunIff(Word(cfg, p));
      assert PathUnderflows(cfg, p);
    }
  }

  /** Some order of traversal looks at the top of an empty stack exactly when some simple path ends what nobody began. */
  lemma UndefinedReadIff(cfg: Cfg)
    requires cfg.Valid()
    ensures MayReadEmpty(cfg) <==> SimplePathUnderflows(cfg)
  {
    UndefinedRunIff(cfg);
    UnderflowInWords(cfg);
  }

  /** In a well-nested function no path ends what nobody began, so an accepting run has looked at no empty stack. */
  lemma WellNestedNeverUnderflows(cfg: Cfg, p: seq<Block>)
    requires WellNested(cfg)
    ensures !PathUnderflows(cfg, p)
  {
    if PathUnderflows(cfg, p) {
      RunIff(Word(cfg, p));
    }
  }

  /** One block that ends what nobody began. */
  const STRAY_END := Cfg(0, {0}, map[0 := [End(0)]], map[], {0})

  /** One block that ends something else than it began. */
  const CROSSED := Cfg(0, {0}, map[0 := [Begin(0), End(1)]], map[], {0})

  lemma OneBlockWord(cfg: Cfg)
    ensures cfg.IsPath([cfg.entry]) && Word(cfg, [cfg.entry]) == cfg.EventsOf(cfg.entry)
  {
    assert [cfg.entry][..0] == [];
  }

  lemma StrayEndUnderflows()
    ensures STRAY_END.Valid() && Distinct([0]) && PathUnderflows(STRAY_END, [0]) && !WellNested(STRAY_END)
  {
    OneBlockWord(STRAY_END);
    assert StrayEnd([End(0)], 0);
    if WellNested(STRAY_END) {
      WellNestedNeverUnderflows(STRAY_END, [0]);
    }
  }

  lemma CrossedIsViolated()
    ensures CROSSED.Valid() && PathViolates(CROSSED, [0]) && !WellNested(CROSSED) && !SimplePathUnderflows(CROSSED)
  {
    OneBlockWord(CROSSED);
    var w := [Begin(0), End(1)];
    assert w[..1] == [] + [Begin(0)];
    LeavesBegin([], [], 0);
    assert [] + [0] == [0];
    assert WrongEnd(w, 1, [0]);
    WrongEndStops(w, 1, [0]);
    NestedPathIff(CROSSED, [0]);
    ArrivalRuns(CROSSED, [0]);
    assert !NestedPath(CROSSED, [0]);
    if p :| Distinct(p) && PathUnderflows(CROSSED, p) {
      CrossedHasOnePath(p);
      RunIff(w);
    }
  }

  lemma CrossedHasOnePath(p: seq<Block>)
    requires CROSSED.IsPath(p)
    ensures p == [0]
  {
  }

  // ----- the verifier -----

  datatype Verdict = Accepted | Violation | UndefinedRead

  /** What holds whenever a path is taken from the fringe. */
  ghost predicate Exploring(cfg: Cfg, s: State)
  {
    && Sound(cfg, s.fringe, s.visited) && Complete(cfg, s.fringe, s.visited) && Reached(cfg, s)
    && if s.visited == map[] then s == Start(cfg) else cfg.entry in s.visited && s.visited[cfg.entry] == []
  }

  lemma StartExploring(cfg: Cfg)
    ensures Exploring(cfg, Start(cfg))
  {
    StartSound(cfg);
    StartReached(cfg);
  }

  lemma TakeKeepsExploring(cfg: Cfg, s: State, path: seq<Block>)
    requires Exploring(cfg, s) && CanTake(cfg, s, path)
    ensures Exploring(cfg, Take(cfg, s, path))
  {
    TakeReaches(cfg, s, path);
    if path[|path| - 1] in s.visited {
      DropPath(cfg, s.fringe, s.visited, path);
    } else {
      VisitIsComplete(cfg, s, path);
      TakeIsSound(cfg, s, path);
    }
  }

  lemma VisitIsComplete(cfg: Cfg, s: State, path: seq<Block>)
    requires Sound(cfg, s.fringe, s.visited) && Complete(cfg, s.fringe, s.visited)
    requires CanTake(cfg, s, path) && path[|path| - 1] !in s.visited
    ensures Complete(cfg, Take(cfg, s, path).fringe, Take(cfg, s, path).visited)
  {
    var b, c := path[|path| - 1], s.fringe[path];
    var rest, visited := s.fringe - {path}, s.visited[b := c];
    VisitBlock(cfg, s.fringe, s.visited, path, c);
    GrownIsSound(cfg, rest, path, cfg.SuccsOf(b), visited, c, Run(c, cfg.EventsOf(b)).ctx);
    CompleteAfterGrowth(cfg, rest, Take(cfg, s, path).fringe, visited, b, c);
  }

  /** The first visit of a block: run its events, check its exit, and grow the path by its successors. */
  method FirstVisit(cfg: Cfg, fringe0: Fringe, visited0: Visited, path: seq<Block>)
    returns (verdict: Verdict, fringe: Fringe, visited: Visited)
    requires Sound(cfg, fringe0, visited0)
    requires path in fringe0 && path[|path| - 1] !in visited0
    ensures verdict == UndefinedRead <==> ReadsEmpty(cfg, State(fringe0, visited0), path)
    ensures verdict == UndefinedRead ==> RunUnderflows(cfg, path)
    ensures verdict == Violation ==> RunViolates(cfg, path)
    ensures verdict == Accepted ==> CanTake(cfg, State(fringe0, visited0), path) && State(fringe, visited) == Take(cfg, State(fringe0, visited0), path)
  {
    var ctx, bb := fringe0[path], path[|path| - 1];
    assert Arrives(cfg, path, bb, ctx);
    fringe := fringe0 - {path};
    visited := visited0[bb := ctx];
    var after := RunBlock(ctx, cfg.EventsOf(bb));
    if after.Underflow? {
      return UndefinedRead, fringe, visited;
    }
    if after.Mismatch? || (bb in cfg.exits && after.ctx != []) {
      return Violation, fringe, visited;
    }
    fringe := GrowPaths(fringe, path, cfg.SuccsOf(bb), after.ctx);
    verdict := Accepted;
  }

  lemma StartSound(cfg: Cfg)
    ensures Sound(cfg, map[[cfg.entry] := []], map[]) && Complete(cfg, map[[cfg.entry] := []], map[])
  {
    var fringe: Fringe := map[[cfg.entry] := []];
    assert Arrives(cfg, [cfg.entry], cfg.entry, []);
    assert [cfg.entry] in fringe;
  }

  lemma Conflict(cfg: Cfg, fringe: Fringe, visited: Visited, p: seq<Block>)
    requires Sound(cfg, fringe, visited) && p in fringe && p[|p| - 1] in visited && visited[p[|p| - 1]] != fringe[p]
    ensures RunViolated(cfg) && !RunsNested(cfg)
  {
    var b := p[|p| - 1];
    var q :| Arrives(cfg, q, b, visited[b]);
    assert Arrives(cfg, p, b, fringe[p]);
    assert RunsDisagree(cfg, p, q);
  }

  /** Takes one path from the fringe. */
  method TakePath(cfg: Cfg, fringe0: Fringe, visited0: Visited, path: seq<Block>)
    returns (verdict: Verdict, fringe: Fringe, visited: Visited)
    requires Exploring(cfg, State(fringe0, visited0)) && path in fringe0
    ensures verdict == Accepted ==> CanTake(cfg, State(fringe0, visited0), path) && State(fringe, visited) == Take(cfg, State(fringe0, visited0), path)
    ensures verdict != Accepted ==> !RunsNested(cfg)
    ensures verdict == Violation ==> RunViolated(cfg) && !Run([], cfg.EventsOf(cfg.entry)).Underflow?
    ensures verdict == UndefinedRead ==> MayReadEmpty(cfg)
  {
    ghost var s := State(fringe0, visited0);
    var bb := path[|path| - 1];
    if bb in visited0 {
      fringe, visited := fringe0 - {path}, visited0;
      if fringe0[path] != visited0[bb] {
        Conflict(cfg, fringe0, visited0, path);
        EntryWasRun(cfg, s);
        return Violation, fringe, visited;
      }
      verdict := Accepted;
    } else {
      verdict, fringe, visited := FirstVisit(cfg, fringe0, visited0, path);
      if verdict != Accepted {
        PathFails(cfg, path);
        Stopped(cfg, s, path);
      }
    }
  }

  /** Every path taken visits one more block, or leaves one path less. */
  lemma TakeShrinks(cfg: Cfg, s: State, path: seq<Block>)
    requires cfg.Valid() && Sound(cfg, s.fringe, s.visited) && CanTake(cfg, s, path) && s.visited.Keys <= cfg.blocks
    ensures var s' := Take(cfg, s, path);
            && s'.visited.Keys <= cfg.blocks
            && (cfg.blocks - s'.visited.Keys < cfg.blocks - s.visited.Keys
                || (s'.visited == s.visited && s'.fringe.Keys < s.fringe.Keys))
  {
    var b := path[|path| - 1];
    if b in s.visited {
      assert (s.fringe - {path}).Keys == s.fringe.Keys - {path};
    } else {
      PathInBlocks(cfg, path);
      assert b in cfg.blocks - s.visited.Keys;
    }
  }

  /** The worklist loop. */
  method Traverse(cfg: Cfg) returns (verdict: Verdict)
    requires cfg.Valid()
    ensures verdict == Accepted <==> RunsNested(cfg)
    ensures verdict == Violation ==> RunViolated(cfg)
    ensures verdict == UndefinedRead ==> MayReadEmpty(cfg)
    ensures Run([], cfg.EventsOf(cfg.entry)).Underflow? ==> verdict == UndefinedRead
  {
    var fringe: Fringe := map[[cfg.entry] := []];
    var visited: Visited := map[];
    StartExploring(cfg);
    while fringe.Keys != {}
      invariant Exploring(cfg, State(fringe, visited))
      invariant visited.Keys <= cfg.blocks
      decreases cfg.blocks - visited.Keys, fringe.Keys
    {
      var path := Pick(fringe.Keys);
      ghost var s := State(fringe, visited);
      verdict, fringe, visited := TakePath(cfg, fringe, visited, path);
      if verdict != Accepted {
        return;
      }
      TakeShrinks(cfg, s, path);
      TakeKeepsExploring(cfg, s, path);
    }
    assert fringe == map[];
    NothingViolated(cfg, visited);
    EntryWasRun(cfg, State(fringe, visited));
    return Accepted;
  }

  lemma PathFails(cfg: Cfg, p: seq<Block>)
    requires RunUnderflows(cfg, p) || RunViolates(cfg, p)
    ensures !RunsNested(cfg) && (RunViolates(cfg, p) ==> RunViolated(cfg))
  {
    assert !PathNests(cfg, p);
  }

  /** Once a block has been visited, the entry block has been run. */
  lemma EntryWasRun(cfg: Cfg, s: State)
    requires Exploring(cfg, s) && s != Start(cfg)
    ensures Run([], cfg.EventsOf(cfg.entry)).Nested?
  {
    assert BlockDone(cfg, s.fringe, s.visited, cfg.entry, s.visited[cfg.entry]);
  }

  lemma Stopped(cfg: Cfg, s: State, path: seq<Block>)
    requires Exploring(cfg, s) && path in s.fringe && path[|path| - 1] !in s.visited
    ensures ReadsEmpty(cfg, s, path) ==> MayReadEmpty(cfg)
    ensures Run([], cfg.EventsOf(cfg.entry)).Underflow? ==> ReadsEmpty(cfg, s, path)
  {
    if ReadsEmpty(cfg, s, path) {
      ReadsEmptyOnSimplePath(cfg, s, path);
    }
    if s != Start(cfg) {
      EntryWasRun(cfg, s);
    }
  }

  /** Accepts exactly the well-nested functions. A violation is a real one, and the top of an empty stack is looked at
      only on a simple path that ends what nobody began. */
  method VerifyNesting(cfg: Cfg) returns (verdict: Verdict)
    requires cfg.Valid()
    ensures verdict == Accepted <==> WellNested(cfg)
    ensures verdict == Violation ==> Violated(cfg)
    ensures verdict == UndefinedRead ==> MayReadEmpty(cfg) && SimplePathUnderflows(cfg)
    ensures (exists k :: StrayEnd(cfg.EventsOf(cfg.entry), k)) ==> verdict == UndefinedRead
  {
    verdict := Traverse(cfg);
    WellNestedIff(cfg);
    UndefinedReadIff(cfg);
    RunIff(cfg.EventsOf(cfg.entry));
    if verdict == Violation {
      ViolatedInWords(cfg);
    }
  }
}
