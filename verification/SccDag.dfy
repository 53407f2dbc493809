/** The DAG of strongly connected components of a loop's dependence graph, with its reachability order. */
module SccDag {

  /** An SCC is identified with its index. */
  type Scc = int

  datatype DagEdge = DagEdge(src: Scc, dst: Scc, loopCarried: bool)

  /** A dependence between two instructions, as stored in an SCC; its ends may lie outside the SCC. */
  datatype Dependence = Dependence(from: int, to: int, loopCarried: bool)

  /** `edges` may hold several dependences between the same two SCCs. `order` is the precomputed
      strict reachability that answers orderedBefore queries. */
  datatype Dag = Dag(nodes: set<Scc>, edges: seq<DagEdge>, order: set<(Scc, Scc)>,
                     members: map<Scc, set<int>>, dependences: map<Scc, seq<Dependence>>)
  {
    ghost predicate HasEdge(a: Scc, b: Scc)
    {
      exists e :: e in edges && e.src == a && e.dst == b
    }

    /** There is a path of n + 1 edges from a to b. */
    ghost predicate PathOf(a: Scc, b: Scc, n: nat)
      decreases n
    {
      if n == 0 then HasEdge(a, b) else exists c :: HasEdge(a, c) && PathOf(c, b, n - 1)
    }

    ghost predicate Precedes(a: Scc, b: Scc)
    {
      exists n: nat :: PathOf(a, b, n)
    }

    ghost predicate Valid()
    {
      && (forall x | x in nodes :: x >= 0)
      && (forall e | e in edges :: e.src in nodes && e.dst in nodes)
      && (forall a: Scc, b: Scc :: (a, b) in order <==> Precedes(a, b))
      && (forall a: Scc :: (a, a) !in order)
    }

    predicate Before(a: Scc, b: Scc) { (a, b) in order }

    predicate AtOrBefore(a: Scc, b: Scc) { a == b || Before(a, b) }

    /** All dependences inside the SCC stay within one iteration. */
    predicate IsParallel(x: Scc)
    {
      x in members && x in dependences ==>
        forall d | d in dependences[x] && d.from in members[x] && d.to in members[x] :: !d.loopCarried
    }

    /** Some loop-carried dependence joins the two SCCs, in either direction. */
    predicate LoopCarriedBetween(a: Scc, b: Scc)
    {
      || (exists e | e in edges :: e.dst == a && e.src == b && e.loopCarried)
      || (exists e | e in edges :: e.src == a && e.dst == b && e.loopCarried)
    }
  }

  /** A loop-carried dependence joins two instructions of the SCC, or one with itself. */
  ghost predicate CarriesInside(dag: Dag, x: Scc)
  {
    && x in dag.members && x in dag.dependences
    && exists d :: d in dag.dependences[x] && d.loopCarried && d.from in dag.members[x] && d.to in dag.members[x]
  }

  /** The test by which SCCs are classified finds exactly those without such a dependence. */
  lemma ParallelIffNotCarried(dag: Dag, x: Scc)
    ensures dag.IsParallel(x) <==> !CarriesInside(dag, x)
  {
  }

  /** The test between SCCs does not see which way the dependence runs. */
  lemma LoopCarriedIsSymmetric(dag: Dag, a: Scc, b: Scc)
    ensures dag.LoopCarriedBetween(a, b) <==> dag.LoopCarriedBetween(b, a)
    ensures dag.LoopCarriedBetween(a, b) <==> exists e :: e in dag.edges && e.loopCarried && {e.src, e.dst} == {a, b}
  {
    if dag.LoopCarriedBetween(a, b) {
      var e :| e in dag.edges && e.loopCarried && ((e.dst == a && e.src == b) || (e.src == a && e.dst == b));
      assert {e.src, e.dst} == {a, b};
    }
    if e :| e in dag.edges && e.loopCarried && {e.src, e.dst} == {a, b} {
      assert e.src in {a, b} && e.dst in {a, b} && a in {e.src, e.dst} && b in {e.src, e.dst};
    }
  }

  lemma {:induction false} JoinPaths(dag: Dag, a: Scc, b: Scc, c: Scc, m: nat, n: nat)
    requires dag.PathOf(a, b, m) && dag.PathOf(b, c, n)
    ensures dag.PathOf(a, c, m + n + 1)
    decreases m
  {
    if m > 0 {
      var d :| dag.HasEdge(a, d) && dag.PathOf(d, b, m - 1);
      JoinPaths(dag, d, b, c, m - 1, n);
    }
  }

  lemma OrderTransitive(dag: Dag, a: Scc, b: Scc, c: Scc)
    requires dag.Valid() && dag.Before(a, b) && dag.Before(b, c)
    ensures dag.Before(a, c)
  {
    var m: nat :| dag.PathOf(a, b, m);
    var n: nat :| dag.PathOf(b, c, n);
    JoinPaths(dag, a, b, c, m, n);
  }

  lemma EdgeOrdered(dag: Dag, e: DagEdge)
    requires dag.Valid() && e in dag.edges
    ensures dag.Before(e.src, e.dst)
  {
    assert dag.HasEdge(e.src, e.dst);
    assert dag.PathOf(e.src, e.dst, 0);
  }

  /** The order is a strict partial order that contains every edge. */
  ghost predicate StrictOrder(dag: Dag)
  {
    && (forall a, b, c | dag.Before(a, b) && dag.Before(b, c) :: dag.Before(a, c))
    && (forall a :: !dag.Before(a, a))
    && (forall e | e in dag.edges :: dag.Before(e.src, e.dst))
  }

  lemma ValidIsStrictOrder(dag: Dag)
    requires dag.Valid()
    ensures StrictOrder(dag)
  {
    forall a, b, c | dag.Before(a, b) && dag.Before(b, c) ensures dag.Before(a, c) {
      OrderTransitive(dag, a, b, c);
    }
    forall e | e in dag.edges ensures dag.Before(e.src, e.dst) {
      EdgeOrdered(dag, e);
    }
  }

  /** A relation that holds every edge and every edge followed by a pair of its own holds every path. */
  lemma {:induction false} PathsInOrder(dag: Dag, a: Scc, b: Scc, n: nat)
    requires forall e | e in dag.edges :: (e.src, e.dst) in dag.order
    requires forall e, c: Scc | e in dag.edges && (e.dst, c) in dag.order :: (e.src, c) in dag.order
    requires dag.PathOf(a, b, n)
    ensures (a, b) in dag.order
    decreases n
  {
    if n > 0 {
      var c :| dag.HasEdge(a, c) && dag.PathOf(c, b, n - 1);
      PathsInOrder(dag, c, b, n - 1);
    }
  }
}
