/** Deciding, stage by stage, which values a pipeline stage executes, rematerializes or consumes. */
module CommPlan {
  import opened FiniteSums

  type Inst = int

  /** `operands` lists the operands that are instructions. */
  datatype Info = Info(operands: seq<Inst>, block: int, memory: bool, load: bool, call: bool, headerPhi: bool, weight: int, budget: int)

  /** The instructions of the loop, and the instructions outside it that they use. */
  datatype Loop = Loop(info: map<Inst, Info>, liveIns: set<Inst>)
  {
    ghost predicate Valid()
    {
      && (forall i, o | i in info && o in info[i].operands :: o in info || o in liveIns)
      && (forall i | i in info :: i !in liveIns)
      && (forall i | i in info && info[i].load :: info[i].memory)
      && (forall i | i in info :: info[i].budget >= 0)
    }

    predicate Uses(i: Inst, o: Inst)
    {
      i in info && o in info[i].operands
    }
  }

  datatype Stage = Stage(parallel: bool, instructions: set<Inst>, replicated: set<Inst>)

  datatype Dep = Dep(src: Inst, dst: Inst, control: bool)

  /** Where a consumed value comes from, and whether the consume sits in the replicated part. */
  type Source = (int, bool)

  datatype Plan = Plan(insts: set<Inst>, avail: set<Inst>, rel: set<int>, cons: map<Inst, Source>)

  ghost predicate ValidDeps(loop: Loop, deps: seq<Dep>)
  {
    forall d | d in deps :: d.src in loop.info && d.dst in loop.info
  }

  /** Everything that the partition puts into stage k or an earlier one. */
  ghost function Upto(stages: seq<Stage>, k: int): set<Inst>
    requires k < |stages|
    decreases k + 1
  {
    if k < 0 then {} else Upto(stages, k - 1) + stages[k].instructions
  }

  /** No operand and no control source belongs to a later stage than its user. */
  ghost predicate Ordered(loop: Loop, stages: seq<Stage>, deps: seq<Dep>)
  {
    forall k | 0 <= k < |stages| :: ClosedStage(loop, stages, deps, k)
  }

  ghost predicate ClosedStage(loop: Loop, stages: seq<Stage>, deps: seq<Dep>, k: int)
    requires 0 <= k < |stages|
  {
    && Upto(stages, k) <= loop.info.Keys
    && (forall i, o | i in Upto(stages, k) && loop.Uses(i, o) && o in loop.info :: o in Upto(stages, k))
    && (forall d | d in deps && d.control && d.dst in Upto(stages, k) :: d.src in Upto(stages, k))
    && stages[k].replicated <= Upto(stages, k)
  }

  lemma {:induction false} UptoHasStage(stages: seq<Stage>, k: int, i: Inst) returns (h: int)
    requires k < |stages| && i in Upto(stages, k)
    ensures 0 <= h <= k && i in stages[h].instructions
    decreases k + 1
  {
    if i in stages[k].instructions {
      h := k;
    } else {
      h := UptoHasStage(stages, k - 1, i);
    }
  }

  // ----- one stage under study -----

  /** The part of the plan that every step keeps. `earlier` are the finished plans of the stages before k. */
  ghost predicate PlanInv(loop: Loop, stages: seq<Stage>, deps: seq<Dep>, earlier: seq<Plan>, k: int, p: Plan)
    requires 0 <= k < |stages| && |earlier| == k
  {
    && p.avail == p.insts + p.cons.Keys + loop.liveIns
    && p.insts <= Upto(stages, k) && p.cons.Keys <= Upto(stages, k)
    && stages[k].instructions <= p.insts && stages[k].replicated <= p.insts
    && (forall i | i in p.insts || i in p.cons :: i in loop.info && loop.info[i].block in p.rel)
    && (forall i | i in p.cons :: SourceOk(earlier, i, p.cons[i].0))
    && (forall i | i in p.insts :: Belongs(loop, stages, deps, k, i))
    && (stages[k].parallel ==> forall i | i in p.cons :: p.cons[i].1 <==> UsedBy(loop, stages[k].replicated, i))
  }

  /** Some instruction of `users` has o as an operand. */
  ghost predicate UsedBy(loop: Loop, users: set<Inst>, o: Inst)
  {
    exists i :: i in users && loop.Uses(i, o)
  }

  /** Stage s, the first where i is available, executes i itself. */
  ghost predicate SourceOk(earlier: seq<Plan>, i: Inst, s: int)
  {
    && 0 <= s < |earlier|
    && i in earlier[s].insts && i !in earlier[s].cons
    && forall r | 0 <= r < s :: i !in earlier[r].avail
  }

  ghost predicate ControlSource(deps: seq<Dep>, i: Inst)
  {
    exists d :: d in deps && d.control && d.src == i
  }

  /** Branches and replicated code apart, only instructions that touch no memory are duplicated, and a parallel stage,
      whose workers do not run every iteration, gets no copy of a header phi. */
  ghost predicate Belongs(loop: Loop, stages: seq<Stage>, deps: seq<Dep>, k: int, i: Inst)
    requires 0 <= k < |stages|
  {
    && i in loop.info
    && (i in stages[k].instructions || i in stages[k].replicated || ControlSource(deps, i)
        || (!loop.info[i].memory && !(stages[k].parallel && loop.info[i].headerPhi)))
  }

  ghost predicate EarlierOk(loop: Loop, stages: seq<Stage>, deps: seq<Dep>, earlier: seq<Plan>)
  {
    && |earlier| <= |stages|
    && forall h | 0 <= h < |earlier| :: PlanInv(loop, stages, deps, earlier[..h], h, earlier[h])
  }

  function AddInst(loop: Loop, p: Plan, i: Inst): Plan
    requires i in loop.info
  {
    p.(insts := p.insts + {i}, avail := p.avail + {i}, rel := p.rel + {loop.info[i].block})
  }

  function AddCommunication(loop: Loop, p: Plan, i: Inst, src: Source): Plan
    requires i in loop.info
  {
    p.(cons := p.cons[i := src], avail := p.avail + {i}, rel := p.rel + {loop.info[i].block})
  }

  lemma AddInstKeeps(loop: Loop, stages: seq<Stage>, deps: seq<Dep>, earlier: seq<Plan>, k: int, p: Plan, i: Inst)
    requires 0 <= k < |stages| && |earlier| == k && PlanInv(loop, stages, deps, earlier, k, p)
    requires i in Upto(stages, k) && Belongs(loop, stages, deps, k, i)
    ensures PlanInv(loop, stages, deps, earlier, k, AddInst(loop, p, i))
  {
  }

  /** If the value is not yet at hand, some earlier stage executes it, so the search for a source succeeds. */
  lemma SourceExists(loop: Loop, stages: seq<Stage>, deps: seq<Dep>, earlier: seq<Plan>, k: int, p: Plan, i: Inst) returns (h: int)
    requires 0 <= k < |stages| && |earlier| == k && PlanInv(loop, stages, deps, earlier, k, p) && EarlierOk(loop, stages, deps, earlier)
    requires i in Upto(stages, k) && i !in p.avail
    ensures 0 <= h < k && i in earlier[h].avail
  {
    h := UptoHasStage(stages, k, i);
    assert PlanInv(loop, stages, deps, earlier[..h], h, earlier[h]);
  }

  /** The first stage that has a value does not merely relay it. */
  lemma FirstHolderExecutes(loop: Loop, stages: seq<Stage>, deps: seq<Dep>, earlier: seq<Plan>, i: Inst, s: int)
    requires EarlierOk(loop, stages, deps, earlier) && 0 <= s < |earlier| && i in loop.info && i !in loop.liveIns
    requires i in earlier[s].avail && forall r | 0 <= r < s :: i !in earlier[r].avail
    ensures SourceOk(earlier, i, s)
  {
    assert PlanInv(loop, stages, deps, earlier[..s], s, earlier[s]);
    assert i in earlier[s].cons ==> SourceOk(earlier[..s], i, earlier[s].cons[i].0);
    if i in earlier[s].cons {
      InstsAvailable(loop, stages, deps, earlier, earlier[s].cons[i].0);
    }
  }

  lemma InstsAvailable(loop: Loop, stages: seq<Stage>, deps: seq<Dep>, earlier: seq<Plan>, r: int)
    requires EarlierOk(loop, stages, deps, earlier) && 0 <= r < |earlier|
    ensures earlier[r].insts <= earlier[r].avail
  {
    assert PlanInv(loop, stages, deps, earlier[..r], r, earlier[r]);
  }

  lemma AddCommunicationKeeps(loop: Loop, stages: seq<Stage>, deps: seq<Dep>, earlier: seq<Plan>, k: int, p: Plan, i: Inst, src: Source)
    requires 0 <= k < |stages| && |earlier| == k && PlanInv(loop, stages, deps, earlier, k, p)
    requires i in loop.info && i in Upto(stages, k) && SourceOk(earlier, i, src.0)
    requires stages[k].parallel ==> (src.1 <==> UsedBy(loop, stages[k].replicated, i))
    ensures PlanInv(loop, stages, deps, earlier, k, AddCommunication(loop, p, i, src))
  {
  }

  /** What all steps of a study share: a valid loop, an ordered partition and finished earlier stages. */
  ghost predicate Studying(loop: Loop, stages: seq<Stage>, deps: seq<Dep>, earlier: seq<Plan>, k: int, p: Plan)
  {
    && loop.Valid() && ValidDeps(loop, deps)
    && 0 <= k < |stages| && |earlier| == k
    && ClosedStage(loop, stages, deps, k)
    && EarlierOk(loop, stages, deps, earlier)
    && PlanInv(loop, stages, deps, earlier, k, p)
  }

  /** The plan only grows. */
  ghost predicate Grows(p: Plan, q: Plan)
  {
    p.insts <= q.insts && p.avail <= q.avail
  }

  ghost predicate GrowsStrictly(p: Plan, q: Plan)
  {
    Grows(p, q) && exists i :: (i in q.insts && i !in p.insts) || (i in q.avail && i !in p.avail)
  }

  /** Branches that decide whether an instruction of this stage runs. */
  ghost predicate ControlClosed(deps: seq<Dep>, p: Plan)
  {
    forall d | d in deps && d.control && (d.dst in p.insts || d.dst in p.cons) :: d.src in p.insts
  }

  /** Some branch that decides about an instruction of p is i. */
  ghost predicate Decides(deps: seq<Dep>, p: Plan, i: Inst)
  {
    exists d :: d in deps && d.control && d.src == i && (d.dst in p.insts || d.dst in p.cons)
  }

  /** q is p with branches added that decide about its instructions. */
  ghost predicate ControlAdded(deps: seq<Dep>, p: Plan, q: Plan)
  {
    p.insts <= q.insts && q.cons == p.cons && forall i | i in q.insts && i !in p.insts :: Decides(deps, q, i)
  }

  lemma ControlAddedNext(loop: Loop, deps: seq<Dep>, p0: Plan, p: Plan, d: Dep)
    requires ControlAdded(deps, p0, p) && d in deps && d.control && (d.dst in p.insts || d.dst in p.cons) && d.src in loop.info
    ensures ControlAdded(deps, p0, AddInst(loop, p, d.src))
  {
    var q := AddInst(loop, p, d.src);
    forall i | i in q.insts && i !in p0.insts ensures Decides(deps, q, i) {
      if i != d.src {
        var e :| e in deps && e.control && e.src == i && (e.dst in p.insts || e.dst in p.cons);
        assert e.dst in q.insts || e.dst in q.cons;
      } else {
        assert d.dst in q.insts || d.dst in q.cons;
      }
    }
  }

  /** Adds the control sources of everything that appears in the stage; one pass over the dependences. */
  method HandleControlDeps(loop: Loop, stages: seq<Stage>, deps: seq<Dep>, ghost earlier: seq<Plan>, k: int, p0: Plan)
    returns (changed: bool, p: Plan)
    requires Studying(loop, stages, deps, earlier, k, p0)
    ensures Studying(loop, stages, deps, earlier, k, p)
    ensures if changed then GrowsStrictly(p0, p) else p == p0 && ControlClosed(deps, p)
    ensures changed ==> !ControlClosed(deps, p0) && ControlAdded(deps, p0, p)
  {
    changed, p := false, p0;
    for j := 0 to |deps|
      invariant changed ==> !ControlClosed(deps, p0)
      invariant ControlAdded(deps, p0, p)
      invariant Studying(loop, stages, deps, earlier, k, p)
      invariant if changed then GrowsStrictly(p0, p) else p == p0
      invariant !changed ==> forall l | 0 <= l < j && deps[l].control && (deps[l].dst in p.insts || deps[l].dst in p.cons) :: deps[l].src in p.insts
    {
      var d := deps[j];
      assert d in deps;
      if d.control && (d.dst in p.insts || d.dst in p.cons) && d.src !in p.insts {
        assert ControlSource(deps, d.src);
        AddInstKeeps(loop, stages, deps, earlier, k, p, d.src);
        assert d.src in AddInst(loop, p, d.src).insts;
        ControlAddedNext(loop, deps, p0, p, d);
        p := AddInst(loop, p, d.src);
        changed := true;
      }
    }
  }

  /** i uses o, and o is not at hand. */
  predicate Missing(loop: Loop, p: Plan, i: Inst, o: Inst)
  {
    i in p.insts && loop.Uses(i, o) && o !in p.avail
  }

  lemma MissingIsEarlier(loop: Loop, stages: seq<Stage>, deps: seq<Dep>, earlier: seq<Plan>, k: int, p: Plan, i: Inst, o: Inst)
    requires Studying(loop, stages, deps, earlier, k, p) && Missing(loop, p, i, o)
    ensures o in loop.info && o in Upto(stages, k)
  {
  }

  /** o touches no memory, has all its operands at hand, and is not a header phi of a parallel stage. */
  predicate Rematerializable(loop: Loop, stage: Stage, p: Plan, o: Inst)
  {
    && o in loop.info
    && !loop.info[o].memory
    && (forall q | q in loop.info[o].operands :: q in p.avail)
    && !(stage.parallel && loop.info[o].headerPhi)
  }

  /** Whatever is missing outside the replicated part touches memory, lacks an operand itself, or is a header phi of a
      parallel stage. */
  ghost predicate NothingRematerializable(loop: Loop, stage: Stage, p: Plan)
  {
    forall i, o | Missing(loop, p, i, o) && i !in stage.replicated && o in loop.info ::
      loop.info[o].memory || LacksOperand(loop, p, o) || (stage.parallel && loop.info[o].headerPhi)
  }

  ghost predicate LacksOperand(loop: Loop, p: Plan, o: Inst)
  {
    exists q :: loop.Uses(o, q) && q !in p.avail
  }

  /** q is p with a copy of o, which was missing outside the replicated part and could be recomputed. */
  ghost predicate Recomputed(loop: Loop, stage: Stage, p: Plan, q: Plan, i: Inst, o: Inst)
  {
    && Missing(loop, p, i, o) && i !in stage.replicated && o in loop.info
    && !loop.info[o].memory && !LacksOperand(loop, p, o) && !(stage.parallel && loop.info[o].headerPhi)
    && q == AddInst(loop, p, o)
  }

  ghost predicate RecomputeStep(loop: Loop, stage: Stage, p: Plan, q: Plan)
  {
    exists i, o :: Recomputed(loop, stage, p, q, i, o)
  }

  lemma StepHadReason(loop: Loop, stage: Stage, p: Plan, q: Plan)
    requires RecomputeStep(loop, stage, p, q)
    ensures !NothingRematerializable(loop, stage, p)
  {
    var i, o :| Recomputed(loop, stage, p, q, i, o);
    assert Missing(loop, p, i, o);
  }

  /** Copies one missing operand into the stage, if one can be recomputed there. The order of the search is left open. */
  method RematerializeOnce(loop: Loop, stages: seq<Stage>, ghost deps: seq<Dep>, ghost earlier: seq<Plan>, k: int, p0: Plan)
    returns (changed: bool, p: Plan)
    requires Studying(loop, stages, deps, earlier, k, p0)
    ensures Studying(loop, stages, deps, earlier, k, p)
    ensures changed ==> GrowsStrictly(p0, p) && RecomputeStep(loop, stages[k], p0, p)
    ensures !changed ==> p == p0 && NothingRematerializable(loop, stages[k], p)
  {
    changed, p := false, p0;
    if i, o :| i in p.insts && i in loop.info && o in loop.info[i].operands && Missing(loop, p, i, o)
               && i !in stages[k].replicated && Rematerializable(loop, stages[k], p, o) {
      MissingIsEarlier(loop, stages, deps, earlier, k, p, i, o);
      AddInstKeeps(loop, stages, deps, earlier, k, p, o);
      assert o in AddInst(loop, p, o).avail;
      p := AddInst(loop, p, o);
      assert Recomputed(loop, stages[k], p0, p, i, o);
      changed := true;
    } else {
      NotRematerializable(loop, stages[k], p);
    }
  }

  lemma NotRematerializable(loop: Loop, stage: Stage, p: Plan)
    requires forall i, o | i in p.insts && i in loop.info && o in loop.info[i].operands && Missing(loop, p, i, o) && i !in stage.replicated ::
               !Rematerializable(loop, stage, p, o)
    ensures NothingRematerializable(loop, stage, p)
  {
    forall i, o | Missing(loop, p, i, o) && i !in stage.replicated && o in loop.info
      ensures loop.info[o].memory || LacksOperand(loop, p, o) || (stage.parallel && loop.info[o].headerPhi)
    {
      assert !Rematerializable(loop, stage, p, o);
      if q :| q in loop.info[o].operands && q !in p.avail {
        assert loop.Uses(o, q);
      }
    }
  }

  /** A chain of plans, each the one before with one more operand recomputed. */
  ghost predicate RecomputeChain(loop: Loop, stage: Stage, h: seq<Plan>)
  {
    |h| > 0 && (|h| > 1 ==> RecomputeChain(loop, stage, h[..|h| - 1]) && RecomputeStep(loop, stage, h[|h| - 2], h[|h| - 1]))
  }

  /** q comes from p by recomputing one or more operands, until there is nothing left to recompute. */
  ghost predicate Rematerialized(loop: Loop, stage: Stage, p: Plan, q: Plan)
  {
    && NothingRematerializable(loop, stage, q) && !NothingRematerializable(loop, stage, p)
    && exists h :: RecomputeChain(loop, stage, h) && h[0] == p && h[|h| - 1] == q
  }

  lemma ChainGrows(loop: Loop, stage: Stage, h: seq<Plan>, q: Plan)
    requires RecomputeChain(loop, stage, h) && RecomputeStep(loop, stage, h[|h| - 1], q)
    ensures RecomputeChain(loop, stage, h + [q])
  {
    assert (h + [q])[..|h|] == h;
  }

  method Rematerialize(loop: Loop, stages: seq<Stage>, ghost deps: seq<Dep>, ghost earlier: seq<Plan>, k: int, p0: Plan)
    returns (changed: bool, p: Plan)
    requires Studying(loop, stages, deps, earlier, k, p0)
    ensures Studying(loop, stages, deps, earlier, k, p)
    ensures if changed then GrowsStrictly(p0, p) && Rematerialized(loop, stages[k], p0, p)
            else p == p0 && NothingRematerializable(loop, stages[k], p)
  {
    changed, p := false, p0;
    var more := true;
    ghost var h := [p];
    while more
      invariant Studying(loop, stages, deps, earlier, k, p)
      invariant if changed then GrowsStrictly(p0, p) && !NothingRematerializable(loop, stages[k], p0) else p == p0
      invariant !more ==> NothingRematerializable(loop, stages[k], p)
      invariant RecomputeChain(loop, stages[k], h) && h[0] == p0 && h[|h| - 1] == p
      decreases more, loop.info.Keys - p.avail, loop.info.Keys - p.insts
    {
      ghost var before := p;
      more, p := RematerializeOnce(loop, stages, deps, earlier, k, p);
      if more {
        GrowthIsBounded(loop, stages, deps, earlier, k, before, p);
        StepHadReason(loop, stages[k], before, p);
        ChainGrows(loop, stages[k], h, p);
        h := h + [p];
        changed := true;
      }
    }
  }

  /** Growth stops: everything added is an instruction of the loop. */
  lemma GrowthIsBounded(loop: Loop, stages: seq<Stage>, deps: seq<Dep>, earlier: seq<Plan>, k: int, p: Plan, q: Plan)
    requires Studying(loop, stages, deps, earlier, k, p) && Studying(loop, stages, deps, earlier, k, q) && GrowsStrictly(p, q)
    ensures loop.info.Keys - q.avail < loop.info.Keys - p.avail
         || (loop.info.Keys - q.avail == loop.info.Keys - p.avail && loop.info.Keys - q.insts < loop.info.Keys - p.insts)
  {
    if i :| i in q.avail && i !in p.avail {
      assert i in loop.info.Keys - p.avail && i !in loop.info.Keys - q.avail;
    } else {
      assert forall i :: i in loop.info.Keys - p.avail <==> i in loop.info.Keys - q.avail;
      var i :| i in q.insts && i !in p.insts;
      assert i in loop.info.Keys - p.insts && i !in loop.info.Keys - q.insts;
    }
  }

  // ----- rematerializing a whole backward slice -----

  /** The slice found so far: recomputable instructions and loads to consume, none of them at hand. */
  ghost predicate SliceInv(loop: Loop, avail: set<Inst>, bound: set<Inst>, remat: set<Inst>, loads: set<Inst>)
  {
    && remat + loads <= bound && bound <= loop.info.Keys
    && (forall i | i in remat :: i !in avail && !loop.info[i].load)
    && (forall i | i in loads :: i !in avail && loop.info[i].load)
  }

  /** Every operand of i is at hand or part of the slice. */
  ghost predicate SliceClosed(loop: Loop, avail: set<Inst>, remat: set<Inst>, loads: set<Inst>, i: Inst)
    requires i in loop.info
  {
    forall o | o in loop.info[i].operands :: o in avail || o in remat || o in loads
  }

  ghost function WeightFn(loop: Loop): Inst -> int
  {
    x => if x in loop.info then loop.info[x].weight else 0
  }

  /** Recomputed instructions count once, loads, which are consumed, five-fold. */
  ghost function SliceCost(loop: Loop, remat: set<Inst>, loads: set<Inst>): int
  {
    Sum(remat, WeightFn(loop)) + 5 * Sum(loads, WeightFn(loop))
  }

  lemma SliceCostAdds(loop: Loop, remat: set<Inst>, loads: set<Inst>, i: Inst)
    requires i in loop.info && i !in remat && i !in loads
    ensures SliceCost(loop, remat + {i}, loads) == SliceCost(loop, remat, loads) + loop.info[i].weight
    ensures SliceCost(loop, remat, loads + {i}) == SliceCost(loop, remat, loads) + 5 * loop.info[i].weight
  {
    SumRemove(remat + {i}, i, WeightFn(loop));
    SumRemove(loads + {i}, i, WeightFn(loop));
    assert remat + {i} - {i} == remat && loads + {i} - {i} == loads;
  }

  /** What S needs is at hand or in S. */
  ghost predicate NeedsClosed(loop: Loop, avail: set<Inst>, S: set<Inst>)
  {
    forall x, o | x in S && loop.Uses(x, o) :: o in avail || o in S
  }

  /** Nothing was collected beyond what every slice for i must hold. */
  ghost predicate OnlyNeeded(loop: Loop, avail: set<Inst>, i: Inst, remat0: set<Inst>, loads0: set<Inst>, remat: set<Inst>, loads: set<Inst>)
  {
    forall S: set<Inst> | NeedsClosed(loop, avail, S) && (i in avail || i in S) :: remat <= remat0 + S && loads <= loads0 + S
  }

  /** Not to be copied: it calls, or touches memory otherwise than by loading. */
  ghost predicate Blocked(loop: Loop, x: Inst)
  {
    x in loop.info && ((loop.info[x].memory && !loop.info[x].load) || loop.info[x].call)
  }

  ghost predicate HoldsBlocked(loop: Loop, S: set<Inst>)
  {
    exists x :: x in S && Blocked(loop, x)
  }

  /** A slice under construction: what was found so far, and what it costs. */
  datatype Draft = Draft(cost: int, remat: set<Inst>, loads: set<Inst>)
  {
    ghost predicate Has(x: Inst)
    {
      x in remat || x in loads
    }
  }

  ghost predicate Accounted(loop: Loop, a: Draft, b: Draft)
  {
    b.cost - a.cost == SliceCost(loop, b.remat, b.loads) - SliceCost(loop, a.remat, a.loads)
  }

  ghost predicate Extends(a: Draft, b: Draft)
  {
    a.remat <= b.remat && a.loads <= b.loads
  }

  /** Everything in b but not in a, i apart, may be copied or loaded and has its operands at hand or in b. */
  ghost predicate Finished(loop: Loop, avail: set<Inst>, a: Draft, b: Draft, i: Inst)
  {
    forall x | b.Has(x) && !a.Has(x) && x != i :: x in loop.info && SliceClosed(loop, avail, b.remat, b.loads, x) && !Blocked(loop, x)
  }

  /** From a to b, the slice has grown by i and by what its first operands need. */
  ghost predicate Grown(loop: Loop, avail: set<Inst>, bound: set<Inst>, a: Draft, b: Draft, i: Inst)
  {
    && SliceInv(loop, avail, bound, b.remat, b.loads) && Extends(a, b) && b.Has(i)
    && OnlyNeeded(loop, avail, i, a.remat, a.loads, b.remat, b.loads)
    && Accounted(loop, a, b) && Finished(loop, avail, a, b, i)
  }

  /** What a search for the slice of i establishes. */
  ghost predicate Searched(loop: Loop, avail: set<Inst>, bound: set<Inst>, budget: int, a: Draft, b: Draft, i: Inst, ok: bool)
  {
    && SliceInv(loop, avail, bound, b.remat, b.loads) && Extends(a, b)
    && OnlyNeeded(loop, avail, i, a.remat, a.loads, b.remat, b.loads)
    && if ok then (i in avail || b.Has(i)) && (a.cost <= budget ==> b.cost <= budget) && Accounted(loop, a, b)
                  && forall x | b.Has(x) && !a.Has(x) :: x in loop.info && SliceClosed(loop, avail, b.remat, b.loads, x) && !Blocked(loop, x)
       else HoldsBlocked(loop, b.remat + b.loads) || (b.cost > budget && Accounted(loop, a, b))
  }

  lemma NeededJoins(loop: Loop, avail: set<Inst>, i: Inst, o: Inst, a: Draft, b: Draft, c: Draft)
    requires loop.Uses(i, o) && i !in avail
    requires OnlyNeeded(loop, avail, i, a.remat, a.loads, b.remat, b.loads) && OnlyNeeded(loop, avail, o, b.remat, b.loads, c.remat, c.loads)
    ensures OnlyNeeded(loop, avail, i, a.remat, a.loads, c.remat, c.loads)
  {
    forall S: set<Inst> | NeedsClosed(loop, avail, S) && i in S ensures c.remat <= a.remat + S && c.loads <= a.loads + S {
      assert o in avail || o in S;
    }
  }

  /** Taking i in. */
  lemma DraftWith(loop: Loop, avail: set<Inst>, bound: set<Inst>, a: Draft, i: Inst)
    requires SliceInv(loop, avail, bound, a.remat, a.loads) && i in bound && i in loop.info && i !in avail && !a.Has(i)
    ensures var info := loop.info[i];
            var b := if info.load then Draft(a.cost + 5 * info.weight, a.remat, a.loads + {i}) else Draft(a.cost + info.weight, a.remat + {i}, a.loads);
            Grown(loop, avail, bound, a, b, i)
  {
    SliceCostAdds(loop, a.remat, a.loads, i);
  }

  /** Going on with the slice of an operand o of i. */
  lemma DraftJoins(loop: Loop, avail: set<Inst>, bound: set<Inst>, budget: int, a: Draft, b: Draft, c: Draft, i: Inst, o: Inst, ok: bool)
    requires loop.Uses(i, o) && i !in avail && Grown(loop, avail, bound, a, b, i) && b.cost <= budget
    requires Searched(loop, avail, bound, budget, b, c, o, ok)
    ensures if ok then Grown(loop, avail, bound, a, c, i) && c.cost <= budget && (o in avail || c.Has(o))
            else Searched(loop, avail, bound, budget, a, c, i, false)
  {
    NeededJoins(loop, avail, i, o, a, b, c);
    if ok {
      forall x | c.Has(x) && !a.Has(x) && x != i ensures x in loop.info && SliceClosed(loop, avail, c.remat, c.loads, x) && !Blocked(loop, x) {
        if b.Has(x) {
          assert SliceClosed(loop, avail, b.remat, b.loads, x);
        }
      }
    }
  }

  /** i itself is finished once its operands are. */
  lemma DraftDone(loop: Loop, avail: set<Inst>, bound: set<Inst>, budget: int, a: Draft, b: Draft, i: Inst)
    requires Grown(loop, avail, bound, a, b, i) && b.cost <= budget && i in loop.info && !Blocked(loop, i)
    requires FirstFound(avail, b, loop.info[i].operands, |loop.info[i].operands|)
    ensures Searched(loop, avail, bound, budget, a, b, i, true)
  {
    assert SliceClosed(loop, avail, b.remat, b.loads, i);
  }

  lemma NothingToDo(loop: Loop, avail: set<Inst>, bound: set<Inst>, budget: int, a: Draft, i: Inst)
    requires SliceInv(loop, avail, bound, a.remat, a.loads) && (i in avail || a.Has(i))
    ensures Searched(loop, avail, bound, budget, a, a, i, true)
  {
  }

  lemma StopsBlocked(loop: Loop, avail: set<Inst>, bound: set<Inst>, budget: int, a: Draft, b: Draft, i: Inst)
    requires SliceInv(loop, avail, bound, a.remat, a.loads) && i in bound && i in loop.info && i !in avail && Blocked(loop, i)
    requires if loop.info[i].load then b == a.(loads := a.loads + {i}) else b == a.(remat := a.remat + {i})
    ensures Searched(loop, avail, bound, budget, a, b, i, false)
  {
    assert i in b.remat + b.loads;
  }

  lemma StopsCostly(loop: Loop, avail: set<Inst>, bound: set<Inst>, budget: int, a: Draft, b: Draft, i: Inst)
    requires Grown(loop, avail, bound, a, b, i) && b.cost > budget
    ensures Searched(loop, avail, bound, budget, a, b, i, false)
  {
  }

  /** Takes i into the slice, unless it is not to be copied or exceeds the budget. */
  method TakeIn(loop: Loop, i: Inst, ghost avail: set<Inst>, budget: int, a: Draft, ghost bound: set<Inst>) returns (ok: bool, b: Draft)
    requires SliceInv(loop, avail, bound, a.remat, a.loads) && i in bound && i in loop.info && i !in avail && !a.Has(i)
    ensures if ok then Grown(loop, avail, bound, a, b, i) && b.cost <= budget && !Blocked(loop, i)
            else Searched(loop, avail, bound, budget, a, b, i, false)
  {
    var info := loop.info[i];
    b := if info.load then a.(loads := a.loads + {i}) else a.(remat := a.remat + {i});
    if info.memory && !info.load {
      StopsBlocked(loop, avail, bound, budget, a, b, i);
      return false, b;
    }
    if info.call {
      StopsBlocked(loop, avail, bound, budget, a, b, i);
      return false, b;
    }
    b := b.(cost := b.cost + if info.load then 5 * info.weight else info.weight);
    DraftWith(loop, avail, bound, a, i);
    ok := b.cost <= budget;
    if !ok {
      StopsCostly(loop, avail, bound, budget, a, b, i);
    }
  }

  /** The bound within which slices are searched holds what its members need. */
  ghost predicate Bounds(loop: Loop, avail: set<Inst>, bound: set<Inst>)
  {
    && loop.Valid() && loop.liveIns <= avail && bound <= loop.info.Keys
    && forall x, o | x in bound && loop.Uses(x, o) && o in loop.info :: o in bound
  }

  /** The first n operands are at hand or in the slice. */
  ghost predicate FirstFound(avail: set<Inst>, b: Draft, operands: seq<Inst>, n: int)
  {
    forall l | 0 <= l < n && l < |operands| :: operands[l] in avail || b.Has(operands[l])
  }

  lemma FirstFoundNext(avail: set<Inst>, c: Draft, b: Draft, operands: seq<Inst>, j: int)
    requires 0 <= j < |operands| && FirstFound(avail, c, operands, j) && Extends(c, b) && (operands[j] in avail || b.Has(operands[j]))
    ensures FirstFound(avail, b, operands, j + 1)
  {
  }

  /** Goes on with the slices of the operands of i. */
  method SliceOperands(loop: Loop, i: Inst, avail: set<Inst>, budget: int, ghost a: Draft, b0: Draft, ghost bound: set<Inst>)
    returns (ok: bool, b: Draft)
    requires Bounds(loop, avail, bound) && i in bound && i !in avail && !Blocked(loop, i)
    requires Grown(loop, avail, bound, a, b0, i) && b0.cost <= budget
    ensures Searched(loop, avail, bound, budget, a, b, i, ok)
    decreases bound - b0.remat - b0.loads, 1
  {
    ok, b := true, b0;
    var operands := loop.info[i].operands;
    for j := 0 to |operands|
      invariant Grown(loop, avail, bound, a, b, i) && b.cost <= budget && Extends(b0, b)
      invariant FirstFound(avail, b, operands, j)
    {
      var o := operands[j];
      assert loop.Uses(i, o);
      ghost var c := b;
      ok, b := BackSlice(loop, o, avail, budget, b, bound);
      DraftJoins(loop, avail, bound, budget, a, c, b, i, o, ok);
      if !ok {
        return false, b;
      }
      FirstFoundNext(avail, c, b, operands, j);
    }
    DraftDone(loop, avail, bound, budget, a, b, i);
    ok := true;
  }

  /** Collects the part of the backward slice of i that is not at hand, while it stays within the cost budget
      and free of calls and of memory accesses other than loads. */
  method BackSlice(loop: Loop, i: Inst, avail: set<Inst>, budget: int, a: Draft, ghost bound: set<Inst>) returns (ok: bool, b: Draft)
    requires Bounds(loop, avail, bound) && SliceInv(loop, avail, bound, a.remat, a.loads) && (i in bound || i in avail)
    ensures Searched(loop, avail, bound, budget, a, b, i, ok)
    decreases bound - a.remat - a.loads, 0
  {
    if i in avail || i in a.remat || i in a.loads {
      NothingToDo(loop, avail, bound, budget, a, i);
      return true, a;
    }
    ok, b := TakeIn(loop, i, avail, budget, a, bound);
    if ok {
      assert i in bound - a.remat - a.loads && i !in bound - b.remat - b.loads;
      ok, b := SliceOperands(loop, i, avail, budget, a, b, bound);
    }
  }

  // ----- communication -----

  /** The search for the first stage where o is available. */
  method FirstHolder(earlier: seq<Plan>, o: Inst, ghost h: int) returns (s: int)
    requires 0 <= h < |earlier| && o in earlier[h].avail
    ensures 0 <= s <= h && o in earlier[s].avail && forall r | 0 <= r < s :: o !in earlier[r].avail
  {
    s := 0;
    while s < |earlier| && o !in earlier[s].avail
      invariant 0 <= s <= h && forall r | 0 <= r < s :: o !in earlier[r].avail
    {
      s := s + 1;
    }
  }

  /** Records that o is consumed from the first earlier stage where it is available. There always is one. */
  method CommunicateValue(loop: Loop, ghost stages: seq<Stage>, ghost deps: seq<Dep>, earlier: seq<Plan>, k: int, p0: Plan, o: Inst, replicated: bool)
    returns (p: Plan)
    requires Studying(loop, stages, deps, earlier, k, p0)
    requires o in loop.info && o in Upto(stages, k) && o !in p0.avail
    requires stages[k].parallel ==> (replicated <==> UsedBy(loop, stages[k].replicated, o))
    ensures Studying(loop, stages, deps, earlier, k, p)
    ensures exists s :: SourceOk(earlier, o, s) && p == AddCommunication(loop, p0, o, (s, replicated))
  {
    ghost var h := SourceExists(loop, stages, deps, earlier, k, p0, o);
    var s := FirstHolder(earlier, o, h);
    FirstHolderExecutes(loop, stages, deps, earlier, o, s);
    AddCommunicationKeeps(loop, stages, deps, earlier, k, p0, o, (s, replicated));
    p := AddCommunication(loop, p0, o, (s, replicated));
  }

  /** `cost` is relative to that of consuming the value. */
  datatype Slice = Slice(cost: real, insts: set<Inst>, loads: set<Inst>)

  function Relative(cost: int, budget: int): real
  {
    if budget == 0 then 0.0 else cost as real / budget as real
  }

  /** A missing operand may be replaced by its slice. */
  ghost predicate SliceFor(loop: Loop, stages: seq<Stage>, k: int, p: Plan, o: Inst, s: Slice)
    requires 0 <= k < |stages|
  {
    && SliceInv(loop, p.avail, Upto(stages, k), s.insts, s.loads)
    && o in loop.info && o in s.insts
    && (forall x | x in s.insts + s.loads :: SliceClosed(loop, p.avail, s.insts, s.loads, x) && !Blocked(loop, x))
    && (forall S: set<Inst> | NeedsClosed(loop, p.avail, S) && o in S :: s.insts <= S && s.loads <= S)
    && SliceCost(loop, s.insts, s.loads) <= loop.info[o].budget
    && CostsShare(s.cost, SliceCost(loop, s.insts, s.loads), loop.info[o].budget)
  }

  /** `share` is the cost as a part of the budget; a budget of zero leaves nothing to compare. */
  ghost predicate CostsShare(share: real, cost: int, budget: int)
  {
    if budget == 0 then share == 0.0 else share * (budget as real) == cost as real
  }

  /** Part of every slice for o is not to be copied, or costs too much. */
  ghost predicate Unsliceable(loop: Loop, p: Plan, o: Inst)
  {
    exists b: Draft :: o in loop.info && OnlyNeeded(loop, p.avail, o, {}, {}, b.remat, b.loads)
      && (HoldsBlocked(loop, b.remat + b.loads) || SliceCost(loop, b.remat, b.loads) > loop.info[o].budget)
  }

  /** Looks for a slice of a missing operand that is cheaper than consuming it. */
  method TrySlice(loop: Loop, ghost stages: seq<Stage>, ghost deps: seq<Dep>, ghost earlier: seq<Plan>, ghost k: int, p: Plan, o: Inst)
    returns (ok: bool, slice: Slice)
    requires Studying(loop, stages, deps, earlier, k, p) && o in loop.info && o in Upto(stages, k) && o !in p.avail
    requires !loop.info[o].memory && loop.info[o].budget >= 0
    ensures if ok then SliceFor(loop, stages, k, p, o, slice) else Unsliceable(loop, p, o)
  {
    var b;
    ok, b := BackSlice(loop, o, p.avail, loop.info[o].budget, Draft(0, {}, {}), Upto(stages, k));
    slice := Slice(Relative(b.cost, loop.info[o].budget), b.remat, b.loads);
    if ok {
      SliceFound(loop, stages, k, p, o, b);
    } else {
      NoSliceFound(loop, Upto(stages, k), p, o, b);
    }
  }

  lemma RelativeShares(cost: int, budget: int)
    ensures CostsShare(Relative(cost, budget), cost, budget)
  {
  }

  lemma SliceFound(loop: Loop, stages: seq<Stage>, k: int, p: Plan, o: Inst, b: Draft)
    requires 0 <= k < |stages| && o in loop.info && o !in p.avail && !loop.info[o].memory && loop.info[o].budget >= 0
    requires loop.Valid() && Searched(loop, p.avail, Upto(stages, k), loop.info[o].budget, Draft(0, {}, {}), b, o, true)
    ensures SliceFor(loop, stages, k, p, o, Slice(Relative(b.cost, loop.info[o].budget), b.remat, b.loads))
  {
    CostFromNothing(loop, b);
    RelativeShares(b.cost, loop.info[o].budget);
    assert b.Has(o) && !loop.info[o].load;
    forall x | x in b.remat + b.loads ensures SliceClosed(loop, p.avail, b.remat, b.loads, x) && !Blocked(loop, x) {
      assert b.Has(x) && !Draft(0, {}, {}).Has(x);
    }
    forall S: set<Inst> | NeedsClosed(loop, p.avail, S) && o in S ensures b.remat <= S && b.loads <= S {
      assert {} + S == S;
    }
  }

  lemma NoSliceFound(loop: Loop, bound: set<Inst>, p: Plan, o: Inst, b: Draft)
    requires o in loop.info && Searched(loop, p.avail, bound, loop.info[o].budget, Draft(0, {}, {}), b, o, false)
    ensures Unsliceable(loop, p, o)
  {
    if Accounted(loop, Draft(0, {}, {}), b) {
      CostFromNothing(loop, b);
    }
  }

  lemma CostFromNothing(loop: Loop, b: Draft)
    requires Accounted(loop, Draft(0, {}, {}), b)
    ensures b.cost == SliceCost(loop, b.remat, b.loads)
  {
    assert SliceCost(loop, {}, {}) == 0;
  }

  ghost predicate MissingFor(loop: Loop, p: Plan, done: set<Inst>, o: Inst)
  {
    exists i :: i in done && Missing(loop, p, i, o)
  }

  /** The three collections built from the missing operands of the instructions in `done`. */
  ghost predicate Collected(loop: Loop, stages: seq<Stage>, k: int, p: Plan, done: set<Inst>,
                            mem: map<Inst, bool>, cheap: map<Inst, Slice>, rest: map<Inst, bool>)
    requires 0 <= k < |stages|
  {
    && (forall o | o in mem :: MissingFor(loop, p, p.insts, o) && o in loop.info && loop.info[o].memory)
    && (forall o | o in cheap :: MissingFor(loop, p, p.insts, o) && SliceFor(loop, stages, k, p, o, cheap[o]) && !stages[k].parallel)
    && (forall o | o in rest :: MissingFor(loop, p, p.insts, o) && (stages[k].parallel || Unsliceable(loop, p, o)))
    && (forall o | MissingFor(loop, p, done, o) :: (o in loop.info && loop.info[o].memory ==> o in mem)
          && (o in mem || o in cheap || o in rest || mem != map[]))
    && Flags(loop, stages[k].replicated, done, mem)
    && (mem == map[] && cheap == map[] ==> Flags(loop, stages[k].replicated, done, rest))
  }

  /** A flag is raised only for operands of replicated instructions, and for all of them that are done. */
  ghost predicate Flags(loop: Loop, replicated: set<Inst>, done: set<Inst>, flags: map<Inst, bool>)
  {
    forall o | o in flags :: (flags[o] ==> UsedBy(loop, replicated, o)) && (UsedBy(loop, replicated * done, o) ==> flags[o])
  }

  /** Replicated instructions are part of the stage from the start, so their missing operands are seen. */
  lemma DoneUsersMiss(loop: Loop, stages: seq<Stage>, deps: seq<Dep>, earlier: seq<Plan>, k: int, p: Plan, done: set<Inst>, o: Inst)
    requires Studying(loop, stages, deps, earlier, k, p) && o !in p.avail
    ensures UsedBy(loop, stages[k].replicated * done, o) ==> MissingFor(loop, p, done, o)
  {
    if i :| i in stages[k].replicated * done && loop.Uses(i, o) {
      assert Missing(loop, p, i, o);
    }
  }

  lemma AddMem(loop: Loop, stages: seq<Stage>, k: int, p: Plan, done: set<Inst>,
               mem: map<Inst, bool>, cheap: map<Inst, Slice>, rest: map<Inst, bool>, i: Inst, o: Inst, flag: bool)
    requires 0 <= k < |stages| && Collected(loop, stages, k, p, done, mem, cheap, rest)
    requires MissingFor(loop, p, p.insts, o) && o in loop.info && loop.info[o].memory && loop.Uses(i, o)
    requires flag <==> (o in mem && mem[o]) || i in stages[k].replicated
    requires UsedBy(loop, stages[k].replicated * done, o) && MissingFor(loop, p, done, o) ==> o in mem
    requires UsedBy(loop, stages[k].replicated * done, o) ==> MissingFor(loop, p, done, o)
    ensures Collected(loop, stages, k, p, done, mem[o := flag], cheap, rest)
  {
    var mem' := mem[o := flag];
    assert o in mem';
    forall x | x in mem' ensures (mem'[x] ==> UsedBy(loop, stages[k].replicated, x)) && (UsedBy(loop, stages[k].replicated * done, x) ==> mem'[x]) {
    }
  }

  lemma AddCheap(loop: Loop, stages: seq<Stage>, k: int, p: Plan, done: set<Inst>,
                 mem: map<Inst, bool>, cheap: map<Inst, Slice>, rest: map<Inst, bool>, o: Inst, s: Slice)
    requires 0 <= k < |stages| && Collected(loop, stages, k, p, done, mem, cheap, rest)
    requires MissingFor(loop, p, p.insts, o) && SliceFor(loop, stages, k, p, o, s) && !stages[k].parallel
    ensures Collected(loop, stages, k, p, done, mem, cheap[o := s], rest)
  {
    assert o in cheap[o := s];
  }

  lemma AddRest(loop: Loop, stages: seq<Stage>, k: int, p: Plan, done: set<Inst>,
                mem: map<Inst, bool>, cheap: map<Inst, Slice>, rest: map<Inst, bool>, i: Inst, o: Inst, flag: bool)
    requires 0 <= k < |stages| && Collected(loop, stages, k, p, done, mem, cheap, rest)
    requires MissingFor(loop, p, p.insts, o) && loop.Uses(i, o) && mem == map[] && (stages[k].parallel || Unsliceable(loop, p, o))
    requires flag <==> (o in rest && rest[o]) || i in stages[k].replicated
    requires UsedBy(loop, stages[k].replicated * done, o) ==> MissingFor(loop, p, done, o)
    ensures Collected(loop, stages, k, p, done, mem, cheap, rest[o := flag])
  {
  }

  method CollectOne(loop: Loop, stages: seq<Stage>, ghost deps: seq<Dep>, ghost earlier: seq<Plan>, k: int, p: Plan, i: Inst, o: Inst, ghost done: set<Inst>,
                    mem0: map<Inst, bool>, cheap0: map<Inst, Slice>, rest0: map<Inst, bool>)
    returns (mem: map<Inst, bool>, cheap: map<Inst, Slice>, rest: map<Inst, bool>)
    requires Studying(loop, stages, deps, earlier, k, p) && i in p.insts && loop.Uses(i, o)
    requires Collected(loop, stages, k, p, done, mem0, cheap0, rest0)
    ensures Collected(loop, stages, k, p, done, mem, cheap, rest)
    ensures mem0.Keys <= mem.Keys && cheap0.Keys <= cheap.Keys && rest0.Keys <= rest.Keys
    ensures o !in p.avail ==> (loop.info[o].memory ==> o in mem) && (o in mem || o in cheap || o in rest || mem != map[])
    ensures (forall x | x in mem0 && mem0[x] :: mem[x]) && (forall x | x in rest0 && rest0[x] :: rest[x])
    ensures i in stages[k].replicated && o in mem ==> mem[o]
    ensures i in stages[k].replicated && mem == map[] && cheap == map[] && o in rest ==> rest[o]
  {
    mem, cheap, rest := mem0, cheap0, rest0;
    if o in p.avail {
      return;
    }
    assert Missing(loop, p, i, o);
    MissingIsEarlier(loop, stages, deps, earlier, k, p, i, o);
    assert MissingFor(loop, p, p.insts, o);
    DoneUsersMiss(loop, stages, deps, earlier, k, p, done, o);
    var inReplicated := i in stages[k].replicated;
    if loop.info[o].memory {
      AddMem(loop, stages, k, p, done, mem, cheap, rest, i, o, (o in mem && mem[o]) || inReplicated);
      mem := mem[o := (o in mem && mem[o]) || inReplicated];
      return;
    }
    if mem != map[] {
      return;
    }
    if !stages[k].parallel {
      var ok, slice := TrySlice(loop, stages, deps, earlier, k, p, o);
      if ok {
        AddCheap(loop, stages, k, p, done, mem, cheap, rest, o, slice);
        cheap := cheap[o := slice];
        return;
      }
    }
    AddRest(loop, stages, k, p, done, mem, cheap, rest, i, o, (o in rest && rest[o]) || inReplicated);
    rest := rest[o := (o in rest && rest[o]) || inReplicated];
  }

  /** All operands of one instruction. */
  method CollectInst(loop: Loop, stages: seq<Stage>, ghost deps: seq<Dep>, ghost earlier: seq<Plan>, k: int, p: Plan, i: Inst, ghost done: set<Inst>,
                     mem0: map<Inst, bool>, cheap0: map<Inst, Slice>, rest0: map<Inst, bool>)
    returns (mem: map<Inst, bool>, cheap: map<Inst, Slice>, rest: map<Inst, bool>)
    requires Studying(loop, stages, deps, earlier, k, p) && i in p.insts && i in loop.info
    requires Collected(loop, stages, k, p, done, mem0, cheap0, rest0)
    ensures Collected(loop, stages, k, p, done + {i}, mem, cheap, rest)
  {
    mem, cheap, rest := mem0, cheap0, rest0;
    var ops := loop.info[i].operands;
    for j := 0 to |ops|
      invariant Collected(loop, stages, k, p, done, mem, cheap, rest)
      invariant forall l | 0 <= l < j :: Seen(loop, stages[k], p, i, ops[l], mem, cheap, rest)
    {
      assert loop.Uses(i, ops[j]);
      ghost var mem1, cheap1, rest1 := mem, cheap, rest;
      MissingKnown(loop, stages, deps, earlier, k, p, i, ops[j]);
      mem, cheap, rest := CollectOne(loop, stages, deps, earlier, k, p, i, ops[j], done, mem, cheap, rest);
      forall l | 0 <= l < j + 1 ensures Seen(loop, stages[k], p, i, ops[l], mem, cheap, rest) {
        assert l < j ==> Seen(loop, stages[k], p, i, ops[l], mem1, cheap1, rest1);
      }
    }
    InstDone(loop, stages, k, p, done, i, mem, cheap, rest);
  }

  lemma MissingKnown(loop: Loop, stages: seq<Stage>, deps: seq<Dep>, earlier: seq<Plan>, k: int, p: Plan, i: Inst, o: Inst)
    requires Studying(loop, stages, deps, earlier, k, p) && i in p.insts && loop.Uses(i, o)
    ensures o !in p.avail ==> o in loop.info
  {
  }

  /** The use of o by i has been taken into account. */
  ghost predicate Seen(loop: Loop, stage: Stage, p: Plan, i: Inst, o: Inst, mem: map<Inst, bool>, cheap: map<Inst, Slice>, rest: map<Inst, bool>)
  {
    && (o !in p.avail ==> o in loop.info && (loop.info[o].memory ==> o in mem) && (o in mem || o in cheap || o in rest || mem != map[]))
    && (i in stage.replicated && o in mem ==> mem[o])
    && (i in stage.replicated && mem == map[] && cheap == map[] && o in rest ==> rest[o])
  }

  lemma InstDone(loop: Loop, stages: seq<Stage>, k: int, p: Plan, done: set<Inst>, i: Inst,
                 mem: map<Inst, bool>, cheap: map<Inst, Slice>, rest: map<Inst, bool>)
    requires 0 <= k < |stages| && i in loop.info && Collected(loop, stages, k, p, done, mem, cheap, rest)
    requires forall l | 0 <= l < |loop.info[i].operands| :: Seen(loop, stages[k], p, i, loop.info[i].operands[l], mem, cheap, rest)
    ensures Collected(loop, stages, k, p, done + {i}, mem, cheap, rest)
  {
    forall o | loop.Uses(i, o) ensures Seen(loop, stages[k], p, i, o, mem, cheap, rest) {
      var l :| 0 <= l < |loop.info[i].operands| && loop.info[i].operands[l] == o;
    }
    forall o | MissingFor(loop, p, done + {i}, o)
      ensures (o in loop.info && loop.info[o].memory ==> o in mem) && (o in mem || o in cheap || o in rest || mem != map[])
    {
      var x :| x in done + {i} && Missing(loop, p, x, o);
      if x in done {
        assert MissingFor(loop, p, done, o);
      } else {
        assert Seen(loop, stages[k], p, i, o, mem, cheap, rest);
      }
    }
    var R := stages[k].replicated;
    forall o | UsedBy(loop, R * (done + {i}), o) ensures UsedBy(loop, R * done, o) || (i in R && loop.Uses(i, o)) {
      var x :| x in R * (done + {i}) && loop.Uses(x, o);
      assert x in done ==> x in R * done;
    }
  }

  method Collect(loop: Loop, stages: seq<Stage>, ghost deps: seq<Dep>, ghost earlier: seq<Plan>, k: int, p: Plan)
    returns (mem: map<Inst, bool>, cheap: map<Inst, Slice>, rest: map<Inst, bool>)
    requires Studying(loop, stages, deps, earlier, k, p)
    ensures Collected(loop, stages, k, p, p.insts, mem, cheap, rest)
  {
    mem, cheap, rest := map[], map[], map[];
    var todo := p.insts;
    while todo != {}
      invariant todo <= p.insts
      invariant Collected(loop, stages, k, p, p.insts - todo, mem, cheap, rest)
      decreases todo
    {
      var i := Pick(todo);
      assert i in p.insts;
      ghost var done := p.insts - todo;
      mem, cheap, rest := CollectInst(loop, stages, deps, earlier, k, p, i, done, mem, cheap, rest);
      todo := todo - {i};
      assert forall x :: x in p.insts - todo <==> x in done + {i};
      assert p.insts - todo == done + {i};
    }
    assert p.insts - todo == p.insts;
  }

  /** The values of `todo` are all still to come from earlier stages, with the right flags. */
  ghost predicate ToCommunicate(loop: Loop, stages: seq<Stage>, k: int, p: Plan, todo: set<Inst>, flags: map<Inst, bool>)
    requires 0 <= k < |stages|
  {
    forall o | o in todo ::
      && o in flags && o in loop.info && o in Upto(stages, k) && o !in p.avail
      && (stages[k].parallel ==> (flags[o] <==> UsedBy(loop, stages[k].replicated, o)))
  }

  method CommunicateAll(loop: Loop, ghost stages: seq<Stage>, ghost deps: seq<Dep>, earlier: seq<Plan>, k: int, p0: Plan, flags: map<Inst, bool>)
    returns (p: Plan)
    requires Studying(loop, stages, deps, earlier, k, p0) && ToCommunicate(loop, stages, k, p0, flags.Keys, flags)
    ensures Studying(loop, stages, deps, earlier, k, p) && Grows(p0, p) && flags.Keys <= p.avail
    ensures p.insts == p0.insts && p.cons.Keys == p0.cons.Keys + flags.Keys
  {
    p := p0;
    var todo := flags.Keys;
    while todo != {}
      invariant todo <= flags.Keys && Studying(loop, stages, deps, earlier, k, p) && Grows(p0, p)
      invariant ToCommunicate(loop, stages, k, p, todo, flags)
      invariant flags.Keys - todo <= p.avail
      invariant p.insts == p0.insts && p.cons.Keys == p0.cons.Keys + (flags.Keys - todo)
      decreases todo
    {
      var o := Pick(todo);
      p := CommunicateValue(loop, stages, deps, earlier, k, p, o, flags[o]);
      todo := todo - {o};
    }
  }

  /** Copies the recomputable part of a slice into the stage. */
  method AddSlice(loop: Loop, ghost stages: seq<Stage>, ghost deps: seq<Dep>, ghost earlier: seq<Plan>, k: int, p0: Plan, insts: set<Inst>)
    returns (p: Plan)
    requires Studying(loop, stages, deps, earlier, k, p0) && !stages[k].parallel
    requires forall i | i in insts :: i in loop.info && i in Upto(stages, k) && !loop.info[i].memory
    ensures Studying(loop, stages, deps, earlier, k, p) && Grows(p0, p)
    ensures p.insts == p0.insts + insts && p.avail == p0.avail + insts && p.cons == p0.cons
  {
    p := p0;
    var todo := insts;
    while todo != {}
      invariant todo <= insts && Studying(loop, stages, deps, earlier, k, p) && Grows(p0, p)
      invariant p.insts == p0.insts + (insts - todo) && p.avail == p0.avail + (insts - todo) && p.cons == p0.cons
      decreases todo
    {
      var i := Pick(todo);
      AddInstKeeps(loop, stages, deps, earlier, k, p, i);
      p := AddInst(loop, p, i);
      todo := todo - {i};
    }
  }

  /** An entry of least relative cost. */
  method Cheapest(cheap: map<Inst, Slice>) returns (best: Inst)
    requires cheap.Keys != {}
    ensures best in cheap && forall o | o in cheap :: cheap[best].cost <= cheap[o].cost
  {
    best := Pick(cheap.Keys);
    var todo := cheap.Keys;
    while todo != {}
      invariant todo <= cheap.Keys && best in cheap
      invariant forall o | o in cheap && o !in todo :: cheap[best].cost <= cheap[o].cost
      decreases todo
    {
      var o := Pick(todo);
      if cheap[o].cost < cheap[best].cost {
        best := o;
      }
      todo := todo - {o};
    }
  }

  ghost predicate NothingMissing(loop: Loop, p: Plan)
  {
    forall i, o :: !Missing(loop, p, i, o)
  }

  ghost predicate MissingValue(loop: Loop, p: Plan, o: Inst)
  {
    MissingFor(loop, p, p.insts, o)
  }

  ghost predicate MissingMemory(loop: Loop, p: Plan, o: Inst)
  {
    MissingValue(loop, p, o) && o in loop.info && loop.info[o].memory
  }

  /** All missing values that come from memory are consumed at once. */
  ghost predicate ConsumesMemory(loop: Loop, p: Plan, q: Plan)
  {
    && (exists o :: MissingMemory(loop, p, o)) && q.insts == p.insts
    && forall o :: o in q.cons <==> o in p.cons || MissingMemory(loop, p, o)
  }

  /** In a sequential stage, the slice s of the missing value o is copied and its loads are consumed. No other missing
      value has a cheaper slice. */
  ghost predicate CopiesSlice(loop: Loop, stages: seq<Stage>, k: int, p: Plan, q: Plan, o: Inst, s: Slice)
    requires 0 <= k < |stages|
  {
    && (forall x :: !MissingMemory(loop, p, x)) && !stages[k].parallel
    && MissingValue(loop, p, o) && SliceFor(loop, stages, k, p, o, s)
    && (forall x | MissingValue(loop, p, x) :: Unsliceable(loop, p, x) || HasDearerSlice(loop, stages, k, p, x, s.cost))
    && q.insts == p.insts + s.insts && q.cons.Keys == p.cons.Keys + s.loads
  }

  ghost predicate HasDearerSlice(loop: Loop, stages: seq<Stage>, k: int, p: Plan, x: Inst, cost: real)
    requires 0 <= k < |stages|
  {
    exists t :: SliceFor(loop, stages, k, p, x, t) && cost <= t.cost
  }

  /** One missing value is consumed, because no slice will do for any of them. */
  ghost predicate ConsumesOne(loop: Loop, stages: seq<Stage>, k: int, p: Plan, q: Plan, o: Inst)
    requires 0 <= k < |stages|
  {
    && (forall x :: !MissingMemory(loop, p, x)) && MissingValue(loop, p, o)
    && (forall x | MissingValue(loop, p, x) :: stages[k].parallel || Unsliceable(loop, p, x))
    && q.insts == p.insts && q.cons.Keys == p.cons.Keys + {o}
  }

  ghost predicate Communicated(loop: Loop, stages: seq<Stage>, k: int, p: Plan, q: Plan)
    requires 0 <= k < |stages|
  {
    || ConsumesMemory(loop, p, q)
    || (exists o, s :: CopiesSlice(loop, stages, k, p, q, o, s))
    || (exists o :: ConsumesOne(loop, stages, k, p, q, o))
  }

  lemma CollectedMemory(loop: Loop, stages: seq<Stage>, k: int, p: Plan, mem: map<Inst, bool>, cheap: map<Inst, Slice>, rest: map<Inst, bool>)
    requires 0 <= k < |stages| && Collected(loop, stages, k, p, p.insts, mem, cheap, rest)
    ensures forall o :: o in mem <==> MissingMemory(loop, p, o)
  {
  }

  lemma CollectedSlices(loop: Loop, stages: seq<Stage>, k: int, p: Plan, mem: map<Inst, bool>, cheap: map<Inst, Slice>, rest: map<Inst, bool>, o: Inst)
    requires 0 <= k < |stages| && Collected(loop, stages, k, p, p.insts, mem, cheap, rest) && mem == map[]
    requires o in cheap && forall x | x in cheap :: cheap[o].cost <= cheap[x].cost
    ensures !stages[k].parallel && MissingValue(loop, p, o) && SliceFor(loop, stages, k, p, o, cheap[o])
    ensures forall x | MissingValue(loop, p, x) :: Unsliceable(loop, p, x) || HasDearerSlice(loop, stages, k, p, x, cheap[o].cost)
  {
    forall x | MissingValue(loop, p, x) ensures Unsliceable(loop, p, x) || HasDearerSlice(loop, stages, k, p, x, cheap[o].cost) {
      if x in cheap {
        assert SliceFor(loop, stages, k, p, x, cheap[x]) && cheap[o].cost <= cheap[x].cost;
      }
    }
  }

  lemma CollectedRest(loop: Loop, stages: seq<Stage>, k: int, p: Plan, mem: map<Inst, bool>, cheap: map<Inst, Slice>, rest: map<Inst, bool>)
    requires 0 <= k < |stages| && Collected(loop, stages, k, p, p.insts, mem, cheap, rest) && mem == map[] && cheap == map[]
    ensures forall x :: x in rest <==> MissingValue(loop, p, x)
    ensures forall x | MissingValue(loop, p, x) :: stages[k].parallel || Unsliceable(loop, p, x)
  {
    forall x | MissingValue(loop, p, x) ensures x in rest {
      assert MissingFor(loop, p, p.insts, x);
    }
  }

  /** Copies the cheapest slice and consumes its loads. */
  method CopySlice(loop: Loop, ghost stages: seq<Stage>, ghost deps: seq<Dep>, earlier: seq<Plan>, k: int, p0: Plan, o: Inst, s: Slice)
    returns (p: Plan)
    requires Studying(loop, stages, deps, earlier, k, p0) && !stages[k].parallel && o !in p0.avail && SliceFor(loop, stages, k, p0, o, s)
    ensures Studying(loop, stages, deps, earlier, k, p) && GrowsStrictly(p0, p)
    ensures p.insts == p0.insts + s.insts && p.cons.Keys == p0.cons.Keys + s.loads
  {
    SliceCanBeCopied(loop, stages, k, p0, o, s);
    p := AddSlice(loop, stages, deps, earlier, k, p0, s.insts);
    var flags := map l | l in s.loads :: false;
    LoadsCanBeConsumed(loop, stages, k, p0, p, o, s, flags);
    p := CommunicateAll(loop, stages, deps, earlier, k, p, flags);
    assert o in p.avail && o !in p0.avail;
  }

  lemma SliceCanBeCopied(loop: Loop, stages: seq<Stage>, k: int, p: Plan, o: Inst, s: Slice)
    requires 0 <= k < |stages| && SliceFor(loop, stages, k, p, o, s)
    ensures forall i | i in s.insts :: i in loop.info && i in Upto(stages, k) && !loop.info[i].memory
  {
    forall i | i in s.insts ensures i in loop.info && i in Upto(stages, k) && !loop.info[i].memory {
      assert i in s.insts + s.loads && !Blocked(loop, i);
    }
  }

  lemma LoadsCanBeConsumed(loop: Loop, stages: seq<Stage>, k: int, p0: Plan, p: Plan, o: Inst, s: Slice, flags: map<Inst, bool>)
    requires 0 <= k < |stages| && !stages[k].parallel && SliceFor(loop, stages, k, p0, o, s)
    requires p.avail == p0.avail + s.insts && flags.Keys == s.loads
    ensures ToCommunicate(loop, stages, k, p, flags.Keys, flags)
  {
    forall l | l in s.loads ensures l in loop.info && l in Upto(stages, k) && l !in p.avail {
      assert l in s.insts + s.loads;
    }
  }

  /** Brings in missing operands: all memory values at once, else the cheapest recomputable slice, else one value. */
  method CommunicateOnce(loop: Loop, stages: seq<Stage>, ghost deps: seq<Dep>, earlier: seq<Plan>, k: int, p0: Plan)
    returns (changed: bool, p: Plan)
    requires Studying(loop, stages, deps, earlier, k, p0)
    ensures Studying(loop, stages, deps, earlier, k, p)
    ensures if changed then GrowsStrictly(p0, p) && Communicated(loop, stages, k, p0, p) else p == p0 && NothingMissing(loop, p)
  {
    var mem, cheap, rest := Collect(loop, stages, deps, earlier, k, p0);
    CollectedIsEarlier(loop, stages, deps, earlier, k, p0, mem, cheap, rest);
    CollectedMemory(loop, stages, k, p0, mem, cheap, rest);
    if mem.Keys != {} {
      p := CommunicateAll(loop, stages, deps, earlier, k, p0, mem);
      Gained(p0, p, mem.Keys);
      MemoryConsumed(loop, p0, p, mem);
      return true, p;
    }
    assert mem == map[];
    if cheap.Keys != {} {
      var o := Cheapest(cheap);
      CollectedSlices(loop, stages, k, p0, mem, cheap, rest, o);
      p := CopySlice(loop, stages, deps, earlier, k, p0, o, cheap[o]);
      assert CopiesSlice(loop, stages, k, p0, p, o, cheap[o]);
      return true, p;
    }
    assert cheap == map[];
    CollectedRest(loop, stages, k, p0, mem, cheap, rest);
    if rest.Keys != {} {
      var o := Pick(rest.Keys);
      p := CommunicateValue(loop, stages, deps, earlier, k, p0, o, rest[o]);
      assert o in p.avail && o !in p0.avail;
      assert ConsumesOne(loop, stages, k, p0, p, o);
      return true, p;
    }
    NoValueMissing(loop, p0);
    return false, p0;
  }

  lemma MemoryConsumed(loop: Loop, p: Plan, q: Plan, mem: map<Inst, bool>)
    requires mem.Keys != {} && (forall o :: o in mem <==> MissingMemory(loop, p, o))
    requires q.insts == p.insts && q.cons.Keys == p.cons.Keys + mem.Keys
    ensures ConsumesMemory(loop, p, q)
  {
    var o := Witness(mem.Keys);
    assert MissingMemory(loop, p, o);
    forall x ensures x in q.cons <==> x in p.cons || MissingMemory(loop, p, x) {
      assert x in q.cons.Keys <==> x in p.cons.Keys + mem.Keys;
    }
  }

  lemma NoValueMissing(loop: Loop, p: Plan)
    requires forall o :: !MissingValue(loop, p, o)
    ensures NothingMissing(loop, p)
  {
    forall i, o ensures !Missing(loop, p, i, o) {
      if Missing(loop, p, i, o) {
        MissingIsValue(loop, p, i, o);
      }
    }
  }

  lemma MissingIsValue(loop: Loop, p: Plan, i: Inst, o: Inst)
    requires Missing(loop, p, i, o)
    ensures MissingValue(loop, p, o)
  {
  }

  lemma Gained(p0: Plan, p: Plan, s: set<Inst>)
    requires Grows(p0, p) && s != {} && s <= p.avail && forall o | o in s :: o !in p0.avail
    ensures GrowsStrictly(p0, p)
  {
    var o := Witness(s);
    assert o in p.avail;
  }

  lemma CollectedIsEarlier(loop: Loop, stages: seq<Stage>, deps: seq<Dep>, earlier: seq<Plan>, k: int, p: Plan,
                           mem: map<Inst, bool>, cheap: map<Inst, Slice>, rest: map<Inst, bool>)
    requires Studying(loop, stages, deps, earlier, k, p) && Collected(loop, stages, k, p, p.insts, mem, cheap, rest)
    ensures ToCommunicate(loop, stages, k, p, mem.Keys, mem)
    ensures mem == map[] && cheap == map[] ==> ToCommunicate(loop, stages, k, p, rest.Keys, rest)
    ensures forall o | o in cheap :: o !in p.avail && SliceFor(loop, stages, k, p, o, cheap[o])
  {
    forall o | MissingFor(loop, p, p.insts, o) ensures o in loop.info && o in Upto(stages, k) && o !in p.avail {
      var i :| i in p.insts && Missing(loop, p, i, o);
      MissingIsEarlier(loop, stages, deps, earlier, k, p, i, o);
    }
    assert stages[k].replicated * p.insts == stages[k].replicated;
  }

  /** One round: branches come first, then rematerialization as far as it goes, and communication only when neither
      changes anything. */
  ghost predicate Round(loop: Loop, stages: seq<Stage>, deps: seq<Dep>, k: int, p: Plan, q: Plan)
    requires 0 <= k < |stages|
  {
    || (!ControlClosed(deps, p) && ControlAdded(deps, p, q))
    || (ControlClosed(deps, p) && Rematerialized(loop, stages[k], p, q))
    || (ControlClosed(deps, p) && NothingRematerializable(loop, stages[k], p) && Communicated(loop, stages, k, p, q))
  }

  ghost predicate Rounds(loop: Loop, stages: seq<Stage>, deps: seq<Dep>, k: int, h: seq<Plan>)
    requires 0 <= k < |stages|
  {
    |h| > 0 && (|h| > 1 ==> Rounds(loop, stages, deps, k, h[..|h| - 1]) && Round(loop, stages, deps, k, h[|h| - 2], h[|h| - 1]))
  }

  /** Some sequence of rounds leads from p to q. */
  ghost predicate Derives(loop: Loop, stages: seq<Stage>, deps: seq<Dep>, k: int, p: Plan, q: Plan)
    requires 0 <= k < |stages|
  {
    exists h :: Rounds(loop, stages, deps, k, h) && h[0] == p && h[|h| - 1] == q
  }

  lemma NoRound(loop: Loop, stages: seq<Stage>, deps: seq<Dep>, k: int, p: Plan)
    requires 0 <= k < |stages|
    ensures Derives(loop, stages, deps, k, p, p)
  {
    assert Rounds(loop, stages, deps, k, [p]);
  }

  lemma OneMoreRound(loop: Loop, stages: seq<Stage>, deps: seq<Dep>, k: int, p0: Plan, p: Plan, q: Plan)
    requires 0 <= k < |stages| && Derives(loop, stages, deps, k, p0, p) && Round(loop, stages, deps, k, p, q)
    ensures Derives(loop, stages, deps, k, p0, q)
  {
    var h :| Rounds(loop, stages, deps, k, h) && h[0] == p0 && h[|h| - 1] == p;
    RoundsGrow(loop, stages, deps, k, h, q);
    assert (h + [q])[0] == p0 && (h + [q])[|h + [q]| - 1] == q;
  }

  lemma RoundsGrow(loop: Loop, stages: seq<Stage>, deps: seq<Dep>, k: int, h: seq<Plan>, q: Plan)
    requires 0 <= k < |stages| && Rounds(loop, stages, deps, k, h) && Round(loop, stages, deps, k, h[|h| - 1], q)
    ensures Rounds(loop, stages, deps, k, h + [q])
  {
    var g := h + [q];
    assert g[..|g| - 1] == h && g[|g| - 2] == h[|h| - 1] && g[|g| - 1] == q;
  }

  /** One round of the loop. */
  method FillRound(loop: Loop, stages: seq<Stage>, deps: seq<Dep>, earlier: seq<Plan>, k: int, p0: Plan) returns (changed: bool, p: Plan)
    requires Studying(loop, stages, deps, earlier, k, p0)
    ensures Studying(loop, stages, deps, earlier, k, p)
    ensures if changed then GrowsStrictly(p0, p) && Round(loop, stages, deps, k, p0, p) else p == p0 && Filled(loop, deps, p)
  {
    changed, p := HandleControlDeps(loop, stages, deps, earlier, k, p0);
    if !changed {
      changed, p := Rematerialize(loop, stages, deps, earlier, k, p);
    }
    if !changed {
      changed, p := CommunicateOnce(loop, stages, deps, earlier, k, p);
    }
  }

  /** Repeats the rounds until none of the three steps changes the plan. */
  method FillOutStage(loop: Loop, stages: seq<Stage>, deps: seq<Dep>, earlier: seq<Plan>, k: int, p0: Plan) returns (p: Plan)
    requires Studying(loop, stages, deps, earlier, k, p0)
    ensures Studying(loop, stages, deps, earlier, k, p)
    ensures Filled(loop, deps, p) && Derives(loop, stages, deps, k, p0, p)
  {
    p := p0;
    var changed := true;
    NoRound(loop, stages, deps, k, p);
    while changed
      invariant Studying(loop, stages, deps, earlier, k, p) && Derives(loop, stages, deps, k, p0, p)
      invariant !changed ==> Filled(loop, deps, p)
      decreases changed, loop.info.Keys - p.avail, loop.info.Keys - p.insts
    {
      ghost var before := p;
      changed, p := FillRound(loop, stages, deps, earlier, k, p);
      if changed {
        GrowthIsBounded(loop, stages, deps, earlier, k, before, p);
        OneMoreRound(loop, stages, deps, k, p0, before, p);
      }
    }
  }

  /** A stage is completely planned: what it executes has its operands and its branches. */
  ghost predicate Filled(loop: Loop, deps: seq<Dep>, p: Plan)
  {
    ControlClosed(deps, p) && NothingMissing(loop, p)
  }

  /** The instructions of the partition and the replicated ones, with nothing communicated yet. */
  ghost predicate Initial(loop: Loop, stage: Stage, p: Plan)
  {
    p.insts == stage.instructions + stage.replicated && p.cons == map[] && p.avail == p.insts + loop.liveIns
  }

  /** The plan of stage k is where the rounds lead from its own instructions. */
  ghost predicate Planned(loop: Loop, stages: seq<Stage>, deps: seq<Dep>, k: int, p: Plan)
    requires 0 <= k < |stages|
  {
    exists p0 :: Initial(loop, stages[k], p0) && Derives(loop, stages, deps, k, p0, p)
  }

  // ----- produces and queues -----

  type Target = (int, bool)
  type ProduceTo = map<Inst, set<Target>>

  function TargetsOf(produces: ProduceTo, i: Inst): set<Target>
  {
    if i in produces then produces[i] else {}
  }

  /** The consume of i in plan p names stage s and the given flag. */
  ghost predicate ConsumesFrom(p: Plan, i: Inst, s: int, flag: bool)
  {
    i in p.cons && p.cons[i] == (s, flag)
  }

  /** A stage produces a value to another exactly when the other consumes it from there. */
  ghost predicate ProducesMatch(plans: seq<Plan>, produces: seq<ProduceTo>, queues: set<(int, int)>)
  {
    && |plans| <= |produces|
    && (forall s, i, k, flag | 0 <= s < |produces| ::
          Produces(produces, s, i, k, flag) <==> 0 <= k < |plans| && ConsumesFrom(plans[k], i, s, flag))
    && (forall s: int, k: int :: (s, k) in queues <==> Queue(plans, s, k))
  }

  ghost predicate Queue(plans: seq<Plan>, s: int, k: int)
  {
    0 <= k < |plans| && exists i, flag :: ConsumesFrom(plans[k], i, s, flag)
  }

  /** Stage k consumes i from s with this flag, the consumes of `todo` in the last stage p not counted. */
  ghost predicate Claims(plans: seq<Plan>, p: Plan, todo: set<Inst>, s: int, i: Inst, k: int, flag: bool)
  {
    || (0 <= k < |plans| && ConsumesFrom(plans[k], i, s, flag))
    || (k == |plans| && i !in todo && ConsumesFrom(p, i, s, flag))
  }

  ghost predicate Linked(plans: seq<Plan>, p: Plan, todo: set<Inst>, s: int, k: int)
  {
    exists i, flag :: Claims(plans, p, todo, s, i, k, flag)
  }

  ghost predicate Produces(produces: seq<ProduceTo>, s: int, i: Inst, k: int, flag: bool)
    requires 0 <= s < |produces|
  {
    (k, flag) in TargetsOf(produces[s], i)
  }

  /** The produces and queues while the consumes of `todo` are still to be entered. */
  ghost predicate Entering(plans: seq<Plan>, p: Plan, todo: set<Inst>, produces: seq<ProduceTo>, queues: set<(int, int)>)
  {
    && |plans| < |produces|
    && (forall s, i, k, flag | 0 <= s < |produces| :: Produces(produces, s, i, k, flag) <==> Claims(plans, p, todo, s, i, k, flag))
    && (forall s: int, k: int :: (s, k) in queues <==> Linked(plans, p, todo, s, k))
  }

  /** Enters the consumes of the stage just studied on the producing side. */
  method ComputeProducesAndQueues(ghost plans: seq<Plan>, p: Plan, k: int, produces0: seq<ProduceTo>, queues0: set<(int, int)>)
    returns (produces: seq<ProduceTo>, queues: set<(int, int)>)
    requires k == |plans| < |produces0| && ProducesMatch(plans, produces0, queues0)
    requires forall i | i in p.cons :: 0 <= p.cons[i].0 < k
    ensures |produces| == |produces0| && ProducesMatch(plans + [p], produces, queues)
  {
    produces, queues := produces0, queues0;
    var todo := p.cons.Keys;
    StartEntering(plans, p, produces, queues);
    while todo != {}
      invariant todo <= p.cons.Keys && |produces| == |produces0|
      invariant Entering(plans, p, todo, produces, queues)
      decreases todo
    {
      var i := Pick(todo);
      var (src, flag) := p.cons[i];
      EnterOne(plans, p, todo, produces, queues, i);
      produces := produces[src := produces[src][i := TargetsOf(produces[src], i) + {(k, flag)}]];
      queues := queues + {(src, k)};
      todo := todo - {i};
    }
    AllEntered(plans, p, produces, queues);
  }

  lemma EnterOne(plans: seq<Plan>, p: Plan, todo: set<Inst>, produces: seq<ProduceTo>, queues: set<(int, int)>, i: Inst)
    requires Entering(plans, p, todo, produces, queues) && i in todo && i in p.cons && 0 <= p.cons[i].0 < |produces|
    ensures var (src, flag) := p.cons[i];
            Entering(plans, p, todo - {i}, produces[src := produces[src][i := TargetsOf(produces[src], i) + {(|plans|, flag)}]], queues + {(src, |plans|)})
  {
    var (src, flag) := p.cons[i];
    var n := |plans|;
    var produces' := produces[src := produces[src][i := TargetsOf(produces[src], i) + {(n, flag)}]];
    forall s, j, k, b | 0 <= s < |produces'|
      ensures Produces(produces', s, j, k, b) <==> Claims(plans, p, todo - {i}, s, j, k, b)
    {
      assert Produces(produces, s, j, k, b) <==> Claims(plans, p, todo, s, j, k, b);
    }
    var queues' := queues + {(src, n)};
    assert Claims(plans, p, todo - {i}, src, i, n, flag);
    forall s: int, k: int ensures (s, k) in queues' <==> Linked(plans, p, todo - {i}, s, k) {
      assert (s, k) in queues <==> Linked(plans, p, todo, s, k);
      if j, b :| Claims(plans, p, todo, s, j, k, b) {
        assert Claims(plans, p, todo - {i}, s, j, k, b);
      }
      if j, b :| Claims(plans, p, todo - {i}, s, j, k, b) {
        assert j != i || k < n ==> Claims(plans, p, todo, s, j, k, b);
      }
    }
  }

  lemma StartEntering(plans: seq<Plan>, p: Plan, produces: seq<ProduceTo>, queues: set<(int, int)>)
    requires ProducesMatch(plans, produces, queues) && |plans| < |produces|
    ensures Entering(plans, p, p.cons.Keys, produces, queues)
  {
    forall s: int, k: int ensures Queue(plans, s, k) <==> Linked(plans, p, p.cons.Keys, s, k) {
      if 0 <= k < |plans| {
        if i, flag :| ConsumesFrom(plans[k], i, s, flag) {
          assert Claims(plans, p, p.cons.Keys, s, i, k, flag);
        }
      }
    }
  }

  lemma AllEntered(plans: seq<Plan>, p: Plan, produces: seq<ProduceTo>, queues: set<(int, int)>)
    requires Entering(plans, p, {}, produces, queues)
    ensures ProducesMatch(plans + [p], produces, queues)
  {
    var more := plans + [p];
    forall s, i, k, flag ensures Claims(plans, p, {}, s, i, k, flag) <==> 0 <= k < |more| && ConsumesFrom(more[k], i, s, flag) {
    }
    forall s: int, k: int ensures Queue(more, s, k) <==> Linked(plans, p, {}, s, k) {
      if 0 <= k < |more| {
        if i, flag :| ConsumesFrom(more[k], i, s, flag) {
          assert Claims(plans, p, {}, s, i, k, flag);
        }
      }
    }
  }

  // ----- preparing a strategy -----

  /** i is an exiting branch of a sequential stage before the parallel stage l. */
  ghost predicate EarlierExit(stages: seq<Stage>, exits: seq<Inst>, l: int, i: Inst)
    requires 0 <= l < |stages|
  {
    i in exits && stages[l].parallel && exists e :: 0 <= e < l && !stages[e].parallel && i in stages[e].instructions
  }

  /** Stage t is stage s with more replicated instructions. */
  ghost predicate SameStage(s: Stage, t: Stage)
  {
    t.parallel == s.parallel && t.instructions == s.instructions && s.replicated <= t.replicated
  }

  ghost predicate SameStages(stages0: seq<Stage>, stages: seq<Stage>)
  {
    |stages| == |stages0| && forall l | 0 <= l < |stages| :: SameStage(stages0[l], stages[l])
  }

  /** Every replicated instruction was there before or is an earlier exit. */
  ghost predicate OnlyExits(stages0: seq<Stage>, stages: seq<Stage>, exits: seq<Inst>)
    requires |stages| == |stages0|
  {
    forall l, i | 0 <= l < |stages| && i in stages[l].replicated :: i in stages0[l].replicated || EarlierExit(stages0, exits, l, i)
  }

  /** The exit i of stage e is replicated in the parallel stages from e + 1 up to n. */
  ghost predicate ExitDone(stages0: seq<Stage>, stages: seq<Stage>, e: int, i: Inst, n: int)
    requires |stages| == |stages0|
  {
    forall l | e < l < n && 0 <= l < |stages| && stages0[l].parallel :: i in stages[l].replicated
  }

  method ReplicateExit(stages0: seq<Stage>, ghost base: seq<Stage>, ghost exits: seq<Inst>, e: int, i: Inst) returns (stages: seq<Stage>)
    requires SameStages(base, stages0) && OnlyExits(base, stages0, exits)
    requires 0 <= e < |stages0| && i in exits && !base[e].parallel && i in base[e].instructions
    ensures SameStages(base, stages) && OnlyExits(base, stages, exits) && SameStages(stages0, stages)
    ensures ExitDone(base, stages, e, i, |stages|)
  {
    stages := stages0;
    for l := e + 1 to |stages0|
      invariant SameStages(base, stages) && OnlyExits(base, stages, exits) && SameStages(stages0, stages)
      invariant ExitDone(base, stages, e, i, l)
    {
      if stages[l].parallel {
        assert EarlierExit(base, exits, l, i);
        stages := stages[l := stages[l].(replicated := stages[l].replicated + {i})];
      }
    }
  }

  /** Exiting branches of a sequential stage are replicated in all later parallel stages. */
  method ReplicateExits(stages0: seq<Stage>, exits: seq<Inst>) returns (stages: seq<Stage>)
    ensures SameStages(stages0, stages)
    ensures forall l, i | 0 <= l < |stages| :: i in stages[l].replicated <==> i in stages0[l].replicated || EarlierExit(stages0, exits, l, i)
  {
    stages := stages0;
    for e := 0 to |stages0|
      invariant SameStages(stages0, stages) && OnlyExits(stages0, stages, exits)
      invariant forall d, i | 0 <= d < e && !stages0[d].parallel && i in exits && i in stages0[d].instructions :: ExitDone(stages0, stages, d, i, |stages|)
    {
      if !stages0[e].parallel {
        for j := 0 to |exits|
          invariant SameStages(stages0, stages) && OnlyExits(stages0, stages, exits)
          invariant forall d, i | 0 <= d < e && !stages0[d].parallel && i in exits && i in stages0[d].instructions :: ExitDone(stages0, stages, d, i, |stages|)
          invariant forall x | 0 <= x < j && exits[x] in stages0[e].instructions :: ExitDone(stages0, stages, e, exits[x], |stages|)
        {
          if exits[j] in stages0[e].instructions {
            ghost var was := stages;
            assert exits[j] in exits;
            stages := ReplicateExit(stages, stages0, exits, e, exits[j]);
            StillDone(stages0, was, stages);
          }
        }
      }
    }
    forall l, i | 0 <= l < |stages| && EarlierExit(stages0, exits, l, i) ensures i in stages[l].replicated {
      var e :| 0 <= e < l && !stages0[e].parallel && i in stages0[e].instructions;
      assert ExitDone(stages0, stages, e, i, |stages|);
    }
  }

  lemma StillDone(stages0: seq<Stage>, was: seq<Stage>, stages: seq<Stage>)
    requires |was| == |stages0| && SameStages(was, stages)
    ensures forall e, i | ExitDone(stages0, was, e, i, |was|) :: ExitDone(stages0, stages, e, i, |stages|)
  {
    forall e, i | ExitDone(stages0, was, e, i, |was|) ensures ExitDone(stages0, stages, e, i, |stages|) {
      forall l | e < l < |stages| && 0 <= l && stages0[l].parallel ensures i in stages[l].replicated {
        assert SameStage(was[l], stages[l]);
      }
    }
  }

  lemma {:induction false} SameUpto(stages0: seq<Stage>, stages: seq<Stage>, k: int)
    requires SameStages(stages0, stages) && k < |stages|
    ensures Upto(stages, k) == Upto(stages0, k)
    decreases k + 1
  {
    if k >= 0 {
      SameUpto(stages0, stages, k - 1);
      assert SameStage(stages0[k], stages[k]);
    }
  }

  lemma {:induction false} UptoGrows(stages: seq<Stage>, e: int, l: int)
    requires 0 <= e <= l < |stages|
    ensures stages[e].instructions <= Upto(stages, l)
    decreases l
  {
    if e < l {
      UptoGrows(stages, e, l - 1);
    }
  }

  /** Replicating earlier exits keeps the partition ordered. */
  lemma StillOrdered(loop: Loop, stages0: seq<Stage>, stages: seq<Stage>, deps: seq<Dep>, exits: seq<Inst>)
    requires Ordered(loop, stages0, deps) && SameStages(stages0, stages) && OnlyExits(stages0, stages, exits)
    ensures Ordered(loop, stages, deps)
  {
    forall k | 0 <= k < |stages| ensures ClosedStage(loop, stages, deps, k) {
      SameUpto(stages0, stages, k);
      assert ClosedStage(loop, stages0, deps, k);
      forall i | i in stages[k].replicated ensures i in Upto(stages, k) {
        if i !in stages0[k].replicated {
          var e :| 0 <= e < k && !stages0[e].parallel && i in stages0[e].instructions;
          UptoGrows(stages0, e, k);
        }
      }
    }
  }

  method InitialPlan(loop: Loop, stage: Stage) returns (p: Plan)
    requires stage.instructions + stage.replicated <= loop.info.Keys
    ensures Initial(loop, stage, p)
    ensures forall i | i in p.insts :: loop.info[i].block in p.rel
  {
    p := Plan({}, {}, {}, map[]);
    var todo := stage.instructions + stage.replicated;
    while todo != {}
      invariant todo <= stage.instructions + stage.replicated
      invariant p.insts == stage.instructions + stage.replicated - todo && p.cons == map[] && p.avail == p.insts
      invariant forall i | i in p.insts :: i in loop.info && loop.info[i].block in p.rel
      decreases todo
    {
      var i := Pick(todo);
      p := AddInst(loop, p, i);
      todo := todo - {i};
    }
    p := p.(avail := p.avail + loop.liveIns);
  }

  /** A pipeline strategy and, for the stages studied so far, what each executes, consumes and produces. */
  class PreparedStrategy {
    const loop: Loop
    const deps: seq<Dep>
    var stages: seq<Stage>
    var plans: seq<Plan>
    var produces: seq<ProduceTo>
    var queues: set<(int, int)>

    ghost predicate Valid()
      reads this
    {
      && loop.Valid() && ValidDeps(loop, deps) && Ordered(loop, stages, deps)
      && |plans| <= |stages| == |produces|
      && EarlierOk(loop, stages, deps, plans)
      && (forall h | 0 <= h < |plans| :: Filled(loop, deps, plans[h]) && Planned(loop, stages, deps, h, plans[h]))
      && ProducesMatch(plans, produces, queues)
    }

    /** Replicates exits, then studies every stage in order. */
    constructor (l: Loop, s: seq<Stage>, d: seq<Dep>, exits: seq<Inst>)
      requires l.Valid() && ValidDeps(l, d) && Ordered(l, s, d)
      ensures Valid() && loop == l && deps == d && |plans| == |stages| == |s|
      ensures SameStages(s, stages)
      ensures forall k, i | 0 <= k < |stages| :: i in stages[k].replicated <==> i in s[k].replicated || EarlierExit(s, exits, k, i)
    {
      loop, deps, stages, plans, queues := l, d, s, [], {};
      produces := seq(|s|, _ => map[]);
      new;
      var r := ReplicateExits(s, exits);
      StillOrdered(l, s, r, d, exits);
      stages := r;
      while |plans| < |stages|
        invariant Valid() && stages == r
      {
        Study();
      }
    }

    /** Plans the next stage and enters its consumes on the producing side. */
    method Study()
      requires Valid() && |plans| < |stages|
      modifies this`plans, this`produces, this`queues
      ensures Valid() && |plans| == |old(plans)| + 1 && plans[..|old(plans)|] == old(plans)
    {
      var k := |plans|;
      assert ClosedStage(loop, stages, deps, k);
      UptoGrows(stages, k, k);
      var p0 := InitialPlan(loop, stages[k]);
      StartStudy(loop, stages, deps, plans, k, p0);
      var p := FillOutStage(loop, stages, deps, plans, k, p0);
      assert Planned(loop, stages, deps, k, p);
      produces, queues := ComputeProducesAndQueues(plans, p, k, produces, queues);
      PlansExtended(loop, stages, deps, plans, p);
      plans := plans + [p];
    }
  }

  lemma StartStudy(loop: Loop, stages: seq<Stage>, deps: seq<Dep>, earlier: seq<Plan>, k: int, p: Plan)
    requires loop.Valid() && ValidDeps(loop, deps) && Ordered(loop, stages, deps)
    requires 0 <= k < |stages| && |earlier| == k && EarlierOk(loop, stages, deps, earlier)
    requires p.insts == stages[k].instructions + stages[k].replicated && p.cons == map[] && p.avail == p.insts + loop.liveIns
    requires forall i | i in p.insts :: i in loop.info && loop.info[i].block in p.rel
    ensures Studying(loop, stages, deps, earlier, k, p)
  {
    assert ClosedStage(loop, stages, deps, k);
    UptoGrows(stages, k, k);
  }

  lemma PlansExtended(loop: Loop, stages: seq<Stage>, deps: seq<Dep>, plans: seq<Plan>, p: Plan)
    requires |plans| < |stages| && Studying(loop, stages, deps, plans, |plans|, p)
    ensures EarlierOk(loop, stages, deps, plans + [p])
  {
    var more := plans + [p];
    forall h | 0 <= h < |more| ensures PlanInv(loop, stages, deps, more[..h], h, more[h]) {
      assert more[..h] == plans[..h];
      assert h == |plans| ==> plans[..h] == plans;
    }
  }
}
