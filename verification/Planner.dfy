/** Choosing loops that can be parallelized together: loops that are never active at the same time. */
module Planner {
  import opened Clique
  import opened FiniteSums

  type Fn = int

  /** The target of a call: a known function, or none for an indirect call. */
  datatype Callee = Direct(fn: Fn) | Indirect

  /** `defined` are the functions with a body; the others are declarations. */
  datatype CallGraph = CallGraph(defined: set<Fn>, callees: map<Fn, seq<Callee>>)
  {
    function CalleesOf(f: Fn): (r: seq<Callee>)
      ensures if f in callees then (f, r) in callees.Items else r == []
    {
      if f in callees then callees[f] else []
    }
  }

  /** A loop: its header and blocks, the function that holds it, and the calls inside it. */
  datatype Loop = Loop(header: int, blocks: set<int>, fn: Fn, calls: seq<Callee>)

  /** One of the calls goes to the defined function g. */
  predicate Targets(cg: CallGraph, calls: seq<Callee>, g: Fn)
  {
    g in cg.defined && Direct(g) in calls
  }

  /** A chain of n + 1 calls through defined functions leads from `calls` to g. */
  ghost predicate ChainOf(cg: CallGraph, calls: seq<Callee>, g: Fn, n: nat)
    decreases n
  {
    if n == 0 then Targets(cg, calls, g)
    else exists f :: Targets(cg, calls, f) && ChainOf(cg, cg.CalleesOf(f), g, n - 1)
  }

  /** g is called, directly or transitively. */
  ghost predicate Reaches(cg: CallGraph, calls: seq<Callee>, g: Fn)
  {
    exists n: nat :: ChainOf(cg, calls, g, n)
  }

  ghost predicate HoldsTargets(cg: CallGraph, calls: seq<Callee>, S: set<Fn>)
  {
    forall g | Targets(cg, calls, g) :: g in S
  }

  /** Every member of A has its own targets in S. */
  ghost predicate ClosedFor(cg: CallGraph, A: set<Fn>, S: set<Fn>)
  {
    forall f | f in A :: HoldsTargets(cg, cg.CalleesOf(f), S)
  }

  lemma FirstCall(cg: CallGraph, calls: seq<Callee>, f: Fn)
    requires Targets(cg, calls, f)
    ensures Reaches(cg, calls, f)
  {
    assert ChainOf(cg, calls, f, 0);
  }

  lemma NextCall(cg: CallGraph, calls: seq<Callee>, f: Fn, g: Fn)
    requires Targets(cg, calls, f) && Reaches(cg, cg.CalleesOf(f), g)
    ensures Reaches(cg, calls, g)
  {
    var n: nat :| ChainOf(cg, cg.CalleesOf(f), g, n);
    assert ChainOf(cg, calls, g, n + 1);
  }

  /** A closed set that holds the first targets holds everything reachable. */
  lemma {:induction false} ClosedHoldsReachable(cg: CallGraph, calls: seq<Callee>, S: set<Fn>, g: Fn, n: nat)
    requires HoldsTargets(cg, calls, S) && ClosedFor(cg, S, S) && ChainOf(cg, calls, g, n)
    ensures g in S
    decreases n
  {
    if n > 0 {
      var f :| Targets(cg, calls, f) && ChainOf(cg, cg.CalleesOf(f), g, n - 1);
      assert HoldsTargets(cg, cg.CalleesOf(f), S);
      ClosedHoldsReachable(cg, cg.CalleesOf(f), S, g, n - 1);
    }
  }

  /** Depth-first search of the call graph below `calls`, adding to `called0`. */
  method CalledFunctions(cg: CallGraph, calls: seq<Callee>, called0: set<Fn>) returns (called: set<Fn>)
    requires called0 <= cg.defined
    ensures called0 <= called <= cg.defined
    ensures HoldsTargets(cg, calls, called)
    ensures ClosedFor(cg, called - called0, called)
    ensures forall g | g in called - called0 :: Reaches(cg, calls, g)
    decreases cg.defined - called0
  {
    called := called0;
    for i := 0 to |calls|
      invariant called0 <= called <= cg.defined
      invariant HoldsTargets(cg, calls[..i], called)
      invariant ClosedFor(cg, called - called0, called)
      invariant forall g | g in called - called0 :: Reaches(cg, calls, g)
    {
      assert calls[..i + 1] == calls[..i] + [calls[i]];
      if calls[i].Direct? && calls[i].fn !in called && calls[i].fn in cg.defined {
        var f := calls[i].fn;
        assert Direct(f) in calls;
        ghost var before := called;
        called := CalledFunctions(cg, cg.CalleesOf(f), called + {f});
        FirstCall(cg, calls, f);
        forall g | g in called - called0 ensures Reaches(cg, calls, g) {
          if g !in before && g != f {
            NextCall(cg, calls, f, g);
          }
        }
        forall h | h in called - called0 ensures HoldsTargets(cg, cg.CalleesOf(h), called) {
          if h in before {
            assert HoldsTargets(cg, cg.CalleesOf(h), before);
          }
        }
      }
    }
    assert calls[..|calls|] == calls;
  }

  /** The functions that a loop calls, directly or transitively, through defined functions. */
  method TransitiveCalls(cg: CallGraph, l: Loop) returns (called: set<Fn>)
    ensures forall g: Fn :: g in called <==> Reaches(cg, l.calls, g)
  {
    var calls := l.calls;
    called := {};
    for i := 0 to |calls|
      invariant called <= cg.defined
      invariant HoldsTargets(cg, calls[..i], called) && ClosedFor(cg, called, called)
      invariant forall g | g in called :: Reaches(cg, calls, g)
    {
      assert calls[..i + 1] == calls[..i] + [calls[i]];
      if calls[i].Direct? && calls[i].fn in cg.defined {
        var f := calls[i].fn;
        assert Direct(f) in calls;
        ghost var before := called;
        called := CalledFunctions(cg, cg.CalleesOf(f), called + {f});
        FirstCall(cg, calls, f);
        forall g | g in called ensures Reaches(cg, calls, g) {
          if g !in before && g != f {
            NextCall(cg, calls, f, g);
          }
        }
        forall h | h in called ensures HoldsTargets(cg, cg.CalleesOf(h), called) {
          if h in before {
            assert HoldsTargets(cg, cg.CalleesOf(h), before);
          }
        }
      }
    }
    assert calls[..|calls|] == calls;
    forall g | Reaches(cg, calls, g) ensures g in called {
      var n: nat :| ChainOf(cg, calls, g, n);
      ClosedHoldsReachable(cg, calls, called, g, n);
    }
  }

  type Memo = map<Loop, set<Fn>>

  ghost predicate MemoOk(cg: CallGraph, memo: Memo)
  {
    forall l | l in memo :: forall g: Fn :: g in memo[l] <==> Reaches(cg, l.calls, g)
  }

  /** Answers from the memo, which it fills on the first question about a loop. */
  method CallsFunction(cg: CallGraph, l: Loop, target: Fn, memo0: Memo) returns (calls: bool, memo: Memo)
    requires MemoOk(cg, memo0)
    ensures MemoOk(cg, memo) && (calls <==> Reaches(cg, l.calls, target))
  {
    memo := memo0;
    if l !in memo {
      var called := TransitiveCalls(cg, l);
      memo := memo[l := called];
    }
    calls := target in memo[l];
  }

  /** The two loops are nested, or one transitively calls the function that holds the other. */
  ghost predicate SimultaneouslyActive(cg: CallGraph, a: Loop, b: Loop)
  {
    || b.header in a.blocks
    || a.header in b.blocks
    || Reaches(cg, a.calls, b.fn)
    || Reaches(cg, b.calls, a.fn)
  }

  method MustBeSimultaneouslyActive(cg: CallGraph, a: Loop, b: Loop, memo0: Memo) returns (active: bool, memo: Memo)
    requires MemoOk(cg, memo0)
    ensures MemoOk(cg, memo) && (active <==> SimultaneouslyActive(cg, a, b))
  {
    memo := memo0;
    if b.header in a.blocks || a.header in b.blocks {
      return true, memo;
    }
    active, memo := CallsFunction(cg, a, b.fn, memo);
    if !active {
      active, memo := CallsFunction(cg, b, a.fn, memo);
    }
  }

  /** An edge joins two different loops that can be selected together. */
  method ComputeEdges(cg: CallGraph, loops: seq<Loop>) returns (edges: Edges)
    ensures Graph(edges)
    ensures forall i: Vertex, j: Vertex :: (i, j) in edges <==>
              0 <= i < |loops| && 0 <= j < |loops| && i != j && !SimultaneouslyActive(cg, loops[i], loops[j])
  {
    edges := {};
    var memo: Memo := map[];
    for i := 0 to |loops|
      invariant MemoOk(cg, memo)
      invariant EdgesUpTo(cg, loops, edges, i, i + 1)
    {
      for j := i + 1 to |loops|
        invariant MemoOk(cg, memo)
        invariant EdgesUpTo(cg, loops, edges, i, j)
      {
        var active;
        active, memo := MustBeSimultaneouslyActive(cg, loops[i], loops[j], memo);
        if !active {
          edges := edges + {(i, j), (j, i)};
        }
      }
    }
  }

  ghost predicate Done(i: int, j: int, a: int, b: int)
  {
    0 <= a < b && (a < i || (a == i && b < j))
  }

  /** All pairs (a, b), a < b, before (i, j) in the order of the two loops have been decided. */
  ghost predicate EdgesUpTo(cg: CallGraph, loops: seq<Loop>, edges: Edges, i: int, j: int)
  {
    forall a: Vertex, b: Vertex :: (a, b) in edges <==>
      && 0 <= a < |loops| && 0 <= b < |loops|
      && (Done(i, j, a, b) || Done(i, j, b, a))
      && !SimultaneouslyActive(cg, loops[a], loops[b])
  }

  /** No two different loops of the set are ever active together. */
  ghost predicate Compatible(cg: CallGraph, loops: seq<Loop>, Q: set<Vertex>)
  {
    && (forall v | v in Q :: 0 <= v < |loops|)
    && (forall u, v | u in Q && v in Q && u != v :: !SimultaneouslyActive(cg, loops[u], loops[v]))
  }

  ghost predicate SavesMost(cg: CallGraph, loops: seq<Loop>, savings: seq<int>, total: int)
  {
    && (exists Q :: Compatible(cg, loops, Q) && WeightOf(savings, Q) == total)
    && (forall Q | Compatible(cg, loops, Q) :: WeightOf(savings, Q) <= total)
  }

  /** No compatible set saves more than a 32-bit integer can hold. */
  ghost predicate SavingsFit(cg: CallGraph, loops: seq<Loop>, savings: seq<int>)
  {
    forall Q | Compatible(cg, loops, Q) :: WeightOf(savings, Q) < 0x8000_0000
  }

  /** Selects loops of which no two are ever active together. They save as much as any such set, and the reported
      total is their savings, exactly when no such set saves too much for a 32-bit integer. */
  method SelectLoops(cg: CallGraph, loops: seq<Loop>, savings: seq<int>) returns (selected: seq<Vertex>, total: int)
    requires |loops| == |savings| && forall i | 0 <= i < |savings| :: savings[i] >= 0
    ensures Distinct(selected) && Compatible(cg, loops, Elems(selected))
    ensures SavesMost(cg, loops, savings, total) <==> SavingsFit(cg, loops, savings)
    ensures SavingsFit(cg, loops, savings) ==> WeightOf(savings, Elems(selected)) == total
  {
    var edges := ComputeEdges(cg, loops);
    selected, total := MaxWeightClique(edges, savings);
    forall Q ensures Compatible(cg, loops, Q) <==> IsClique(edges, |savings|, Q) {
      CompatibleIsClique(cg, loops, edges, Q);
    }
    SameMeaning(cg, loops, savings, edges, total);
  }

  lemma SameMeaning(cg: CallGraph, loops: seq<Loop>, savings: seq<int>, edges: Edges, total: int)
    requires |loops| == |savings| && forall Q :: Compatible(cg, loops, Q) <==> IsClique(edges, |savings|, Q)
    ensures SavesMost(cg, loops, savings, total) <==> IsMaximum(edges, savings, total)
    ensures SavingsFit(cg, loops, savings) <==> CliquesFit(edges, savings)
  {
  }

  lemma CompatibleIsClique(cg: CallGraph, loops: seq<Loop>, edges: Edges, Q: set<Vertex>)
    requires forall i: Vertex, j: Vertex :: (i, j) in edges <==>
               0 <= i < |loops| && 0 <= j < |loops| && i != j && !SimultaneouslyActive(cg, loops[i], loops[j])
    ensures Compatible(cg, loops, Q) <==> IsClique(edges, |loops|, Q)
  {
  }
}
