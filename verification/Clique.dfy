/** Maximum-weight cliques by the extended Bron-Kerbosch search. */
module Clique {
  import opened FiniteSums
  import opened MachineInts

  type Vertex = int
  type Edges = set<(Vertex, Vertex)>

  ghost predicate Graph(E: Edges)
  {
    && (forall u: Vertex, v: Vertex | (u, v) in E :: (v, u) in E)
    && (forall v: Vertex :: (v, v) !in E)
  }

  ghost predicate IsClique(E: Edges, n: nat, Q: set<Vertex>)
  {
    && (forall v | v in Q :: 0 <= v < n)
    && (forall u, v | u in Q && v in Q && u != v :: (u, v) in E)
  }

  ghost function WeightFn(W: seq<int>): Vertex -> int
  {
    (v: Vertex) => if 0 <= v < |W| then W[v] else 0
  }

  ghost function WeightOf(W: seq<int>, Q: set<Vertex>): int
  {
    Sum(Q, WeightFn(W))
  }

  /** The weight of Q as a 32-bit accumulator sees it. */
  ghost function Score(W: seq<int>, Q: set<Vertex>): int
  {
    ToInt32(WeightOf(W, Q))
  }

  /** v is adjacent to every vertex of c and outside c. */
  ghost predicate Candidate(E: Edges, n: nat, c: set<Vertex>, v: Vertex)
  {
    0 <= v < n && v !in c && forall u | u in c :: (u, v) in E
  }

  ghost predicate IsMaximal(E: Edges, n: nat, Q: set<Vertex>)
  {
    IsClique(E, n, Q) && forall v :: !Candidate(E, n, Q, v)
  }

  /** Every maximal clique that contains c scores at most `bound`. */
  ghost predicate Beaten(E: Edges, W: seq<int>, c: set<Vertex>, bound: int)
  {
    forall Q | IsMaximal(E, |W|, Q) && c <= Q :: Score(W, Q) <= bound
  }

  /** p and s split the candidates of c, and every maximal clique through c and a vertex of s is already beaten. */
  ghost predicate SearchState(E: Edges, W: seq<int>, c: set<Vertex>, p: set<Vertex>, s: set<Vertex>, bound: int)
  {
    && IsClique(E, |W|, c)
    && (forall v :: v in p || v in s <==> Candidate(E, |W|, c, v))
    && (forall v | v in s :: Beaten(E, W, c + {v}, bound))
  }

  /** A maximal clique through c goes beyond c if c has a candidate. */
  lemma BeyondClique(E: Edges, n: nat, c: set<Vertex>, v: Vertex, Q: set<Vertex>) returns (x: Vertex)
    requires Candidate(E, n, c, v) && IsMaximal(E, n, Q)
    ensures x in Q && x !in c
  {
    if v in Q {
      x := v;
    } else {
      assert !Candidate(E, n, Q, v);
      x :| x in Q && (x, v) !in E;
    }
  }

  /** With no candidate left unexplored, every maximal clique through c is beaten; c is not one of them. */
  lemma Exhausted(E: Edges, W: seq<int>, c: set<Vertex>, s: set<Vertex>, bound: int)
    requires SearchState(E, W, c, {}, s, bound) && s != {}
    ensures Beaten(E, W, c, bound)
  {
    var v := Witness(s);
    assert Candidate(E, |W|, c, v);
    forall Q | IsMaximal(E, |W|, Q) && c <= Q ensures Score(W, Q) <= bound {
      var x := BeyondClique(E, |W|, c, v, Q);
      assert Candidate(E, |W|, c, x);
      assert Beaten(E, W, c + {x}, bound);
      assert c + {x} <= Q;
    }
  }

  /** A clique without candidates is maximal, and the only clique through itself. */
  lemma MaximalClique(E: Edges, W: seq<int>, c: set<Vertex>, bound: int)
    requires SearchState(E, W, c, {}, {}, bound)
    ensures IsMaximal(E, |W|, c) && forall Q | IsClique(E, |W|, Q) && c <= Q :: Q == c
  {
    forall Q | IsClique(E, |W|, Q) && c <= Q ensures Q == c {
      if x :| x in Q && x !in c {
        assert Candidate(E, |W|, c, x);
      } else {
        assert forall x :: x in Q <==> x in c;
      }
    }
  }

  /** Descending into v keeps the search state. */
  lemma Descend(E: Edges, W: seq<int>, c: set<Vertex>, p: set<Vertex>, s: set<Vertex>, bound: int, v: Vertex, p': set<Vertex>, s': set<Vertex>)
    requires Graph(E) && SearchState(E, W, c, p, s, bound) && v in p
    requires forall x :: x in p' <==> x in p && (v, x) in E
    requires forall x :: x in s' <==> x in s && (v, x) in E
    ensures SearchState(E, W, c + {v}, p', s', bound)
  {
    assert Candidate(E, |W|, c, v);
    forall x ensures x in p' || x in s' <==> Candidate(E, |W|, c + {v}, x) {
      assert x in p || x in s <==> Candidate(E, |W|, c, x);
      if Candidate(E, |W|, c + {v}, x) {
        assert v in c + {v};
        assert Candidate(E, |W|, c, x);
      }
    }
    forall x | x in s' ensures Beaten(E, W, c + {v} + {x}, bound) {
      assert Beaten(E, W, c + {x}, bound);
    }
  }

  lemma Advance(E: Edges, W: seq<int>, c: set<Vertex>, p: set<Vertex>, s: set<Vertex>, bound: int, bound': int, v: Vertex)
    requires SearchState(E, W, c, p, s, bound) && bound <= bound' && v in p && Beaten(E, W, c + {v}, bound')
    ensures SearchState(E, W, c, p - {v}, s + {v}, bound')
  {
    forall x | x in s + {v} ensures Beaten(E, W, c + {x}, bound') {
      if x != v { assert Beaten(E, W, c + {x}, bound); }
    }
  }

  lemma AppendWeight(W: seq<int>, c: seq<Vertex>, i: nat)
    requires Distinct(c) && i < |c| && 0 <= c[i] < |W|
    ensures WeightOf(W, Elems(c[..i + 1])) == WeightOf(W, Elems(c[..i])) + W[c[i]]
  {
    assert c[..i + 1] == c[..i] + [c[i]];
    SumRemove(Elems(c[..i + 1]), c[i], WeightFn(W));
    assert forall x :: x in Elems(c[..i + 1]) - {c[i]} <==> x in Elems(c[..i]);
    assert Elems(c[..i + 1]) - {c[i]} == Elems(c[..i]);
  }

  /** Weight of the current clique, accumulated in a 32-bit integer. */
  method CliqueWeight(W: seq<int>, c: seq<Vertex>) returns (wt: int)
    requires Distinct(c) && forall v | v in c :: 0 <= v < |W|
    ensures wt == Score(W, Elems(c))
  {
    wt := 0;
    for i := 0 to |c|
      invariant wt == Score(W, Elems(c[..i]))
    {
      assert c[i] in c;
      AppendWeight(W, c, i);
      AddInt32(WeightOf(W, Elems(c[..i])), W[c[i]]);
      wt := ToInt32(wt + W[c[i]]);
    }
    assert c[..|c|] == c;
  }

  /** The members of p, and those of s, that are adjacent to v, in ascending order. */
  method Neighbours(E: Edges, n: nat, v: Vertex, p: seq<Vertex>, s: seq<Vertex>) returns (pv: seq<Vertex>, sv: seq<Vertex>)
    requires forall x | x in p || x in s :: 0 <= x < n
    ensures forall x :: x in pv <==> x in p && (v, x) in E
    ensures forall x :: x in sv <==> x in s && (v, x) in E
    ensures Distinct(pv) && Distinct(sv)
  {
    pv, sv := [], [];
    for i := 0 to n
      invariant forall x :: x in pv <==> x in p && x < i && (v, x) in E
      invariant forall x :: x in sv <==> x in s && x < i && (v, x) in E
      invariant Distinct(pv) && Distinct(sv)
    {
      if (v, i) in E {
        if i in p {
          pv := pv + [i];
        }
        if i in s {
          sv := sv + [i];
        }
      }
    }
  }

  /** The score below which no clique is ever recorded. */
  const NO_CLIQUE := -1000

  /** The answer found so far: nothing, or a maximal clique and its score. */
  ghost predicate Answer(E: Edges, W: seq<int>, best: seq<Vertex>, bestWt: int)
  {
    if bestWt == NO_CLIQUE then best == []
    else bestWt > NO_CLIQUE && Distinct(best) && IsMaximal(E, |W|, Elems(best)) && Score(W, Elems(best)) == bestWt
  }

  /** Explores all cliques through c; `p` holds the candidates still to try, `s` those already tried. */
  method Search(c: seq<Vertex>, p0: seq<Vertex>, s0: seq<Vertex>, E: Edges, W: seq<int>, best0: seq<Vertex>, bestWt0: int)
    returns (best: seq<Vertex>, bestWt: int)
    requires Graph(E) && Distinct(c) && Distinct(p0)
    requires (forall x | x in p0 :: x !in s0) && SearchState(E, W, Elems(c), Elems(p0), Elems(s0), bestWt0)
    requires Answer(E, W, best0, bestWt0)
    ensures bestWt >= bestWt0 && Answer(E, W, best, bestWt)
    ensures Beaten(E, W, Elems(c), bestWt)
    decreases |p0|
  {
    best, bestWt := best0, bestWt0;
    var p, s := p0, s0;
    if p == [] && s == [] {
      assert Elems(p) == {} && Elems(s) == {};
      MaximalClique(E, W, Elems(c), bestWt);
      assert forall v | v in c :: v in Elems(c);
      var wt := CliqueWeight(W, c);
      if wt > bestWt {
        bestWt := wt;
        best := c;
      }
      return;
    }
    while p != []
      invariant |p| <= |p0| && Distinct(p) && (forall x | x in p :: x !in s)
      invariant SearchState(E, W, Elems(c), Elems(p), Elems(s), bestWt)
      invariant bestWt >= bestWt0 && Answer(E, W, best, bestWt)
      invariant p != [] || s != []
      decreases |p|
    {
      var v := p[|p| - 1];
      assert v in Elems(p);
      InRange(E, W, c, p, s, bestWt);
      var pv, sv := Neighbours(E, |W|, v, p, s);
      ShorterCandidates(p, pv, v, E);
      Descend(E, W, Elems(c), Elems(p), Elems(s), bestWt, v, Elems(pv), Elems(sv));
      assert Elems(c + [v]) == Elems(c) + {v};
      FreshCandidate(E, W, c, p, s, bestWt, v);
      ghost var before := bestWt;
      best, bestWt := Search(c + [v], pv, sv, E, W, best, bestWt);
      Advance(E, W, Elems(c), Elems(p), Elems(s), before, bestWt, v);
      MoveLast(p, s);
      p := p[..|p| - 1];
      s := s + [v];
    }
    assert Elems(p) == {} && s[0] in Elems(s);
    Exhausted(E, W, Elems(c), Elems(s), bestWt);
  }

  lemma InRange(E: Edges, W: seq<int>, c: seq<Vertex>, p: seq<Vertex>, s: seq<Vertex>, bound: int)
    requires SearchState(E, W, Elems(c), Elems(p), Elems(s), bound)
    ensures forall x | x in p || x in s :: 0 <= x < |W|
  {
    forall x | x in p || x in s ensures 0 <= x < |W| {
      assert x in Elems(p) || x in Elems(s);
      assert Candidate(E, |W|, Elems(c), x);
    }
  }

  lemma FreshCandidate(E: Edges, W: seq<int>, c: seq<Vertex>, p: seq<Vertex>, s: seq<Vertex>, bound: int, v: Vertex)
    requires SearchState(E, W, Elems(c), Elems(p), Elems(s), bound) && v in p && Distinct(c)
    ensures Distinct(c + [v])
  {
    assert v in Elems(p);
    assert Candidate(E, |W|, Elems(c), v);
  }

  lemma MoveLast(p: seq<Vertex>, s: seq<Vertex>)
    requires p != [] && Distinct(p) && forall x | x in p :: x !in s
    ensures var v, q := p[|p| - 1], p[..|p| - 1];
            && Elems(q) == Elems(p) - {v} && Elems(s + [v]) == Elems(s) + {v}
            && Distinct(q) && (forall x | x in q :: x !in s + [v])
  {
    var v, q := p[|p| - 1], p[..|p| - 1];
    assert p == q + [v];
    assert forall x :: x in Elems(q) <==> x in Elems(p) - {v};
  }

  /** v itself is not its own neighbour, so the next level has fewer candidates. */
  lemma ShorterCandidates(p: seq<Vertex>, pv: seq<Vertex>, v: Vertex, E: Edges)
    requires v in p && Distinct(pv) && Graph(E) && forall x :: x in pv <==> x in p && (v, x) in E
    ensures |pv| < |p|
  {
    DistinctFits(pv, p, v);
  }

  lemma {:induction false} DistinctFits(a: seq<Vertex>, b: seq<Vertex>, v: Vertex)
    requires Distinct(a) && v in b && v !in a && forall x | x in a :: x in b
    ensures |a| < |b|
    decreases |a|
  {
    if a != [] {
      var x := a[0];
      assert x in a;
      var i :| 0 <= i < |b| && b[i] == x;
      var b' := b[..i] + b[i + 1..];
      forall y | y in a[1..] || y == v ensures y in b' {
        assert y in b && y != x;
        var j :| 0 <= j < |b| && b[j] == y;
        assert if j < i then b'[j] == y else b'[j - 1] == y;
      }
      DistinctFits(a[1..], b', v);
    }
  }

  // ----- when the answer is a maximum-weight clique -----

  ghost predicate IsMaximum(E: Edges, W: seq<int>, wt: int)
  {
    && (exists Q :: IsClique(E, |W|, Q) && WeightOf(W, Q) == wt)
    && (forall Q | IsClique(E, |W|, Q) :: WeightOf(W, Q) <= wt)
  }

  /** No clique is heavier than the accumulator can hold. */
  ghost predicate CliquesFit(E: Edges, W: seq<int>)
  {
    forall Q | IsClique(E, |W|, Q) :: WeightOf(W, Q) < 0x8000_0000
  }

  lemma SubsetWeight(W: seq<int>, A: set<Vertex>, B: set<Vertex>)
    requires A <= B && forall i | 0 <= i < |W| :: W[i] >= 0
    ensures WeightOf(W, A) <= WeightOf(W, B)
  {
    SumSubset(A, B, WeightFn(W));
  }

  ghost function Below(n: nat): set<Vertex>
  {
    if n == 0 then {} else Below(n - 1) + {n - 1}
  }

  lemma {:induction false} InBelow(n: nat, v: Vertex)
    ensures v in Below(n) <==> 0 <= v < n
  {
    if n > 0 {
      InBelow(n - 1, v);
    }
  }

  lemma {:induction false} ExtendToMaximal(E: Edges, n: nat, Q: set<Vertex>) returns (M: set<Vertex>)
    requires Graph(E) && IsClique(E, n, Q)
    ensures Q <= M && IsMaximal(E, n, M)
    decreases Below(n) - Q
  {
    if v :| Candidate(E, n, Q, v) {
      InBelow(n, v);
      assert v in Below(n) - Q && v !in Below(n) - (Q + {v});
      M := ExtendToMaximal(E, n, Q + {v});
    } else {
      M := Q;
    }
  }

  /** The returned weight is that of a heaviest clique exactly when every clique weight fits the accumulator. */
  lemma MaximumIffFits(E: Edges, W: seq<int>, best: seq<Vertex>, bestWt: int)
    requires Graph(E) && forall i | 0 <= i < |W| :: W[i] >= 0
    requires Answer(E, W, best, bestWt) && Beaten(E, W, {}, bestWt)
    ensures IsMaximum(E, W, bestWt) <==> CliquesFit(E, W)
    ensures CliquesFit(E, W) ==> Distinct(best) && IsClique(E, |W|, Elems(best)) && WeightOf(W, Elems(best)) == bestWt
  {
    assert bestWt < 0x8000_0000;
    if CliquesFit(E, W) {
      forall Q | IsClique(E, |W|, Q) ensures 0 <= WeightOf(W, Q) <= bestWt {
        var M := ExtendToMaximal(E, |W|, Q);
        SubsetWeight(W, {}, Q);
        SubsetWeight(W, Q, M);
        assert Score(W, M) <= bestWt;
      }
      assert IsClique(E, |W|, {});
      assert WeightOf(W, {}) == 0;
    }
  }

  lemma StartSearch(E: Edges, W: seq<int>, p: seq<Vertex>)
    requires forall x :: x in p <==> 0 <= x < |W|
    ensures Elems<Vertex>([]) == {} && SearchState(E, W, {}, Elems(p), {}, NO_CLIQUE)
  {
    forall x ensures x in Elems(p) <==> Candidate(E, |W|, {}, x) { }
  }

  /** Records a best-scoring maximal clique of the graph on the vertices below |W|. With non-negative weights it is a
      heaviest clique, and its weight is returned, exactly when no clique is too heavy for the accumulator. */
  method MaxWeightClique(E: Edges, W: seq<int>) returns (best: seq<Vertex>, bestWt: int)
    requires Graph(E)
    ensures Answer(E, W, best, bestWt)
    ensures forall Q | IsMaximal(E, |W|, Q) :: Score(W, Q) <= bestWt
    ensures if exists Q :: IsMaximal(E, |W|, Q) && Score(W, Q) > -1000
            then Distinct(best) && IsMaximal(E, |W|, Elems(best)) && Score(W, Elems(best)) == bestWt
            else best == [] && bestWt == -1000
    ensures (forall i | 0 <= i < |W| :: W[i] >= 0) ==> (IsMaximum(E, W, bestWt) <==> CliquesFit(E, W))
    ensures (forall i | 0 <= i < |W| :: W[i] >= 0) && CliquesFit(E, W) ==>
              Distinct(best) && IsClique(E, |W|, Elems(best)) && WeightOf(W, Elems(best)) == bestWt
  {
    var p: seq<Vertex> := [];
    for i := 0 to |W|
      invariant Distinct(p) && forall x :: x in p <==> 0 <= x < i
    {
      assert forall x :: x in p + [i] <==> x in p || x == i;
      assert forall j | 0 <= j < |p| :: p[j] in p;
      p := p + [i];
    }
    StartSearch(E, W, p);
    best, bestWt := Search([], p, [], E, W, [], NO_CLIQUE);
    if forall i | 0 <= i < |W| :: W[i] >= 0 {
      MaximumIffFits(E, W, best, bestWt);
    }
  }

  // ----- a clique too heavy for the accumulator -----

  const PAIR: Edges := {(0, 1), (1, 0)}
  const HEAVY := [0x4000_0000, 0x4000_0000]

  lemma PairWraps()
    ensures Score(HEAVY, {0, 1}) == -0x8000_0000
  {
    SumRemove({0, 1}, 0, WeightFn(HEAVY));
    assert {0, 1} - {0} == {1};
    SumRemove({1}, 1, WeightFn(HEAVY));
    assert {1} - {1} == {};
  }

  lemma PairIsMaximal(Q: set<Vertex>)
    requires IsMaximal(PAIR, 2, Q)
    ensures Q == {0, 1}
  {
    assert !Candidate(PAIR, 2, Q, 0) && !Candidate(PAIR, 2, Q, 1);
    assert forall v | v in Q :: v == 0 || v == 1;
  }

  /** Two compatible vertices of weight 2^30 each: their clique weighs 2^31, which the accumulator turns
      negative, so the search answers with no clique at all. */
  lemma HeavyPairIsMissed(best: seq<Vertex>, bestWt: int)
    requires Answer(PAIR, HEAVY, best, bestWt)
    ensures Graph(PAIR) && best == [] && bestWt == -1000
  {
    PairWraps();
    if bestWt != NO_CLIQUE {
      PairIsMaximal(Elems(best));
    }
  }
}
