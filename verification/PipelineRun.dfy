/** Runs of the generated pipeline: asynchronous stages over bounded FIFO queues, each following its own
    projection of one common instruction trace. */
module PipelineRun {
  import opened CommPlan
  import opened FiniteSums

  type Value = int
  type Registers = map<Inst, Value>

  /** The code of the stages, the trace they follow, and the meaning of an instruction instance as a
      function of its trace position and its operand values. */
  datatype Pipeline = Pipeline(loop: Loop, plans: seq<Plan>, produces: seq<ProduceTo>, trace: seq<Inst>,
                               eval: (Inst, int, Registers) -> Value, init: Registers, capacity: int)

  // ----- the original loop -----

  /** What i reads: those of its operands that are defined, with their values. */
  function Operands(P: Pipeline, regs: Registers, i: Inst): (r: Registers)
    ensures forall o :: o in r <==> P.loop.Uses(i, o) && o in regs
    ensures forall o | o in r :: r[o] == regs[o]
  {
    if i in P.loop.info then map o | o in P.loop.info[i].operands && o in regs :: regs[o] else map[]
  }

  /** The registers of the original loop after t steps of the trace. */
  ghost function Original(P: Pipeline, t: int): Registers
    requires 0 <= t <= |P.trace|
    decreases t, 0
  {
    if t == 0 then P.init
    else Original(P, t - 1)[P.trace[t - 1] := Instance(P, t - 1)]
  }

  /** The value that the original loop computes at position t. */
  ghost function Instance(P: Pipeline, t: int): Value
    requires 0 <= t < |P.trace|
    decreases t, 1
  {
    P.eval(P.trace[t], t, Operands(P, Original(P, t), P.trace[t]))
  }

  // ----- the generated stages -----

  /** A stage is between two instructions, or has executed one and still has to send its value to `todo`. */
  datatype Phase = Ready | Sending(todo: set<int>)

  datatype StageState = StageState(pc: int, phase: Phase, regs: Registers)

  datatype System = System(stages: seq<StageState>, queues: map<(int, int), seq<Value>>)

  function QueueOf(s: System, a: int, b: int): seq<Value>
  {
    if (a, b) in s.queues then s.queues[(a, b)] else []
  }

  function TargetStages(P: Pipeline, k: int, i: Inst): set<int>
    requires 0 <= k < |P.produces|
  {
    set t | t in TargetsOf(P.produces[k], i) :: t.0
  }

  datatype Action = Skip | Consume | Execute | Send(to: int)

  ghost predicate WellTyped(P: Pipeline, s: System)
  {
    |s.stages| == |P.plans| == |P.produces|
  }

  /** What stage k may do next. A consume waits for a value, a send waits for room. */
  ghost predicate Enabled(P: Pipeline, s: System, k: int, a: Action)
  {
    && WellTyped(P, s)
    && 0 <= k < |s.stages|
    && 0 <= s.stages[k].pc < |P.trace|
    && var i, p := P.trace[s.stages[k].pc], P.plans[k];
       match a
       case Skip => s.stages[k].phase == Ready && i !in p.cons && i !in p.insts
       case Consume => s.stages[k].phase == Ready && i in p.cons && QueueOf(s, p.cons[i].0, k) != []
       case Execute => s.stages[k].phase == Ready && i !in p.cons && i in p.insts
       case Send(j) => s.stages[k].phase.Sending? && j in s.stages[k].phase.todo && i in s.stages[k].regs
                       && |QueueOf(s, k, j)| < P.capacity
  }

  /** Stage k after finishing the instruction it is at, with everything sent but `todo`. */
  function Advance(st: StageState, todo: set<int>): StageState
  {
    if todo == {} then st.(pc := st.pc + 1, phase := Ready) else st.(phase := Sending(todo))
  }

  ghost function Apply(P: Pipeline, s: System, k: int, a: Action): System
    requires Enabled(P, s, k, a)
  {
    var st := s.stages[k];
    var i, p := P.trace[st.pc], P.plans[k];
    match a
    case Skip => s.(stages := s.stages[k := Advance(st, {})])
    case Consume =>
      var src := p.cons[i].0;
      var q := QueueOf(s, src, k);
      System(s.stages[k := Advance(st.(regs := st.regs[i := q[0]]), {})], s.queues[(src, k) := q[1..]])
    case Execute =>
      var v := P.eval(i, st.pc, Operands(P, st.regs, i));
      s.(stages := s.stages[k := Advance(st.(regs := st.regs[i := v]), TargetStages(P, k, i))])
    case Send(j) =>
      System(s.stages[k := Advance(st, st.phase.todo - {j})], s.queues[(k, j) := QueueOf(s, k, j) + [st.regs[i]]])
  }

  ghost function Start(P: Pipeline): System
  {
    System(seq(|P.plans|, _ => StageState(0, Ready, P.init)), map[])
  }

  // ----- what planning guarantees -----

  /** Stage k consumes the instance at position t from stage a. */
  ghost predicate From(P: Pipeline, k: int, a: int, t: int)
  {
    0 <= k < |P.plans| && 0 <= t < |P.trace| && P.trace[t] in P.plans[k].cons && P.plans[k].cons[P.trace[t]].0 == a
  }

  ghost predicate StagePlumbed(P: Pipeline, k: int)
    requires 0 <= k < |P.plans|
  {
    && P.plans[k].avail == P.plans[k].insts + P.plans[k].cons.Keys + P.loop.liveIns
    && (forall i, o | i in P.plans[k].insts && P.loop.Uses(i, o) :: o in P.plans[k].avail)
  }

  /** Consumes come from earlier stages that execute the value, and match the produces there. */
  ghost predicate Plumbed(P: Pipeline)
  {
    && |P.plans| == |P.produces| && P.capacity >= 1
    && (forall t | 0 <= t < |P.trace| :: P.trace[t] in P.loop.info && P.trace[t] !in P.loop.liveIns)
    && (forall k | 0 <= k < |P.plans| :: StagePlumbed(P, k))
    && (forall k, a, t | From(P, k, a, t) :: 0 <= a < k && P.trace[t] in P.plans[a].insts && P.trace[t] !in P.plans[a].cons)
    && (forall k, a, t | 0 <= a < |P.plans| && 0 <= t < |P.trace| :: k in TargetStages(P, a, P.trace[t]) <==> From(P, k, a, t))
  }

  lemma InsideIsNotLiveIn(loop: Loop, i: Inst)
    requires loop.Valid() && i in loop.info
    ensures i !in loop.liveIns
  {
  }

  /** A completely prepared strategy is plumbed. */
  lemma PreparedIsPlumbed(P: Pipeline, stages: seq<Stage>, deps: seq<Dep>, queues: set<(int, int)>)
    requires P.loop.Valid() && EarlierOk(P.loop, stages, deps, P.plans) && |P.plans| == |P.produces|
    requires forall k | 0 <= k < |P.plans| :: Filled(P.loop, deps, P.plans[k])
    requires ProducesMatch(P.plans, P.produces, queues)
    requires P.capacity >= 1 && forall t | 0 <= t < |P.trace| :: P.trace[t] in P.loop.info
    ensures Plumbed(P)
  {
    forall t | 0 <= t < |P.trace| ensures P.trace[t] in P.loop.info && P.trace[t] !in P.loop.liveIns {
      InsideIsNotLiveIn(P.loop, P.trace[t]);
    }
    forall k | 0 <= k < |P.plans| ensures StagePlumbed(P, k) {
      assert PlanInv(P.loop, stages, deps, P.plans[..k], k, P.plans[k]);
      assert Filled(P.loop, deps, P.plans[k]);
      forall i, o | i in P.plans[k].insts && P.loop.Uses(i, o) ensures o in P.plans[k].avail {
        assert !Missing(P.loop, P.plans[k], i, o);
      }
    }
    forall k, a, t | From(P, k, a, t) ensures 0 <= a < k && P.trace[t] in P.plans[a].insts && P.trace[t] !in P.plans[a].cons {
      assert PlanInv(P.loop, stages, deps, P.plans[..k], k, P.plans[k]);
      assert SourceOk(P.plans[..k], P.trace[t], a);
    }
    forall k, a, t | 0 <= a < |P.plans| && 0 <= t < |P.trace| ensures k in TargetStages(P, a, P.trace[t]) <==> From(P, k, a, t) {
      var i := P.trace[t];
      if k in TargetStages(P, a, i) {
        var x :| x in TargetsOf(P.produces[a], i) && x.0 == k;
        assert x == (k, x.1);
        assert Produces(P.produces, a, i, k, x.1);
      }
      if From(P, k, a, t) {
        assert ConsumesFrom(P.plans[k], i, a, P.plans[k].cons[i].1);
        assert Produces(P.produces, a, i, k, P.plans[k].cons[i].1);
      }
    }
  }

  // ----- the invariant of every run -----

  /** The values of the positions from a up to b that stage k consumes from stage src, in order. */
  ghost function Pending(P: Pipeline, k: int, src: int, a: int, b: int): seq<Value>
    requires 0 <= a && b <= |P.trace|
    decreases b
  {
    if b <= a then [] else Pending(P, k, src, a, b - 1) + (if From(P, k, src, b - 1) then [Instance(P, b - 1)] else [])
  }

  /** How far stage src has sent to stage k: the positions below are done. */
  ghost function Sent(P: Pipeline, s: System, src: int, k: int): int
    requires 0 <= src < |s.stages|
  {
    var st := s.stages[src];
    if st.phase.Sending? && 0 <= st.pc < |P.trace| && From(P, k, src, st.pc) && k !in st.phase.todo then st.pc + 1 else st.pc
  }

  /** Position up to which the registers of a stage are up to date. */
  ghost function Reached(st: StageState): int
  {
    if st.phase.Sending? then st.pc + 1 else st.pc
  }

  ghost predicate SameRegisters(avail: set<Inst>, r: Registers, r0: Registers)
  {
    forall o | o in avail :: (o in r <==> o in r0) && (o in r ==> r[o] == r0[o])
  }

  ghost predicate StageInv(P: Pipeline, s: System, k: int)
    requires 0 <= k < |s.stages| && k < |P.plans| && k < |P.produces|
  {
    var st := s.stages[k];
    && 0 <= st.pc && Reached(st) <= |P.trace|
    && (st.phase.Sending? ==> st.phase.todo != {} && P.trace[st.pc] in P.plans[k].insts && P.trace[st.pc] !in P.plans[k].cons
                              && forall j | j in st.phase.todo :: From(P, j, k, st.pc))
    && SameRegisters(P.plans[k].avail, st.regs, Original(P, Reached(st)))
  }

  /** q holds exactly the values sent and not yet consumed, and the consumer has not run past a value it needs. */
  ghost predicate QueueMatches(P: Pipeline, k: int, src: int, q: seq<Value>, pc: int, sent: int)
  {
    && 0 <= pc && 0 <= sent <= |P.trace|
    && q == Pending(P, k, src, pc, sent)
    && forall t | sent <= t < pc :: !From(P, k, src, t)
  }

  ghost predicate QueueInv(P: Pipeline, s: System, src: int, k: int)
    requires 0 <= src < |s.stages| && 0 <= k < |s.stages|
  {
    QueueMatches(P, k, src, QueueOf(s, src, k), s.stages[k].pc, Sent(P, s, src, k))
  }

  ghost predicate Inv(P: Pipeline, s: System)
  {
    && Plumbed(P) && WellTyped(P, s)
    && (forall k | 0 <= k < |s.stages| :: StageInv(P, s, k))
    && (forall src, k | 0 <= src < |s.stages| && 0 <= k < |s.stages| :: QueueInv(P, s, src, k))
  }

  lemma {:induction false} PendingFront(P: Pipeline, k: int, src: int, a: int, b: int)
    requires 0 <= a < b <= |P.trace|
    ensures Pending(P, k, src, a, b) == (if From(P, k, src, a) then [Instance(P, a)] else []) + Pending(P, k, src, a + 1, b)
    decreases b
  {
    if b > a + 1 {
      PendingFront(P, k, src, a, b - 1);
    }
  }

  lemma StartInv(P: Pipeline)
    requires Plumbed(P)
    ensures Inv(P, Start(P))
  {
  }

  /** An instruction that the stage neither executes nor consumes changes nothing it can see. */
  lemma SkipKeepsRegisters(P: Pipeline, k: int, st: StageState)
    requires Plumbed(P) && 0 <= k < |P.plans| && 0 <= st.pc < |P.trace|
    requires P.trace[st.pc] !in P.plans[k].insts && P.trace[st.pc] !in P.plans[k].cons
    requires SameRegisters(P.plans[k].avail, st.regs, Original(P, st.pc))
    ensures SameRegisters(P.plans[k].avail, st.regs, Original(P, st.pc + 1))
  {
    assert StagePlumbed(P, k);
  }

  /** A stage that executes an instruction sees the operand values of the original loop. */
  lemma ExecuteComputesInstance(P: Pipeline, k: int, st: StageState)
    requires Plumbed(P) && 0 <= k < |P.plans| && 0 <= st.pc < |P.trace| && P.trace[st.pc] in P.plans[k].insts
    requires SameRegisters(P.plans[k].avail, st.regs, Original(P, st.pc))
    ensures P.eval(P.trace[st.pc], st.pc, Operands(P, st.regs, P.trace[st.pc])) == Instance(P, st.pc)
    ensures SameRegisters(P.plans[k].avail, st.regs[P.trace[st.pc] := Instance(P, st.pc)], Original(P, st.pc + 1))
  {
    var i := P.trace[st.pc];
    assert StagePlumbed(P, k);
    forall o | o in P.loop.info[i].operands ensures o in P.plans[k].avail {
      assert P.loop.Uses(i, o);
    }
    var a, b := Operands(P, st.regs, i), Operands(P, Original(P, st.pc), i);
    forall o: Inst | o in P.loop.info[i].operands ensures (o in a <==> o in b) && (o in a ==> a[o] == b[o]) {
      assert o in P.plans[k].avail;
    }
    assert forall o: Inst | o in a || o in b :: o in P.loop.info[i].operands;
    SameMap(a, b);
  }

  // ----- how a queue follows its two ends -----

  lemma ConsumerPasses(P: Pipeline, k: int, src: int, q: seq<Value>, pc: int, sent: int)
    requires QueueMatches(P, k, src, q, pc, sent) && pc < |P.trace| && !From(P, k, src, pc)
    ensures QueueMatches(P, k, src, q, pc + 1, sent)
  {
    if pc < sent {
      PendingFront(P, k, src, pc, sent);
    }
  }

  /** What a consumer finds at the head of the queue is the value of the instance it is at. */
  lemma ConsumerTakes(P: Pipeline, k: int, src: int, q: seq<Value>, pc: int, sent: int)
    requires QueueMatches(P, k, src, q, pc, sent) && pc < |P.trace| && From(P, k, src, pc) && q != []
    ensures q[0] == Instance(P, pc) && QueueMatches(P, k, src, q[1..], pc + 1, sent)
  {
    PendingFront(P, k, src, pc, sent);
  }

  lemma ProducerPasses(P: Pipeline, k: int, src: int, q: seq<Value>, pc: int, sent: int)
    requires QueueMatches(P, k, src, q, pc, sent) && sent < |P.trace| && !From(P, k, src, sent)
    ensures QueueMatches(P, k, src, q, pc, sent + 1)
  {
    if pc <= sent {
      assert Pending(P, k, src, pc, sent + 1) == Pending(P, k, src, pc, sent) + [];
    }
  }

  lemma ProducerSends(P: Pipeline, k: int, src: int, q: seq<Value>, pc: int, sent: int)
    requires QueueMatches(P, k, src, q, pc, sent) && sent < |P.trace| && From(P, k, src, sent)
    ensures QueueMatches(P, k, src, q + [Instance(P, sent)], pc, sent + 1)
  {
  }

  // ----- every step keeps the invariant -----

  /** Stage k finished the instruction it was at without touching any queue. */
  lemma PassKeepsQueues(P: Pipeline, s: System, s': System, k: int)
    requires Inv(P, s) && WellTyped(P, s') && 0 <= k < |s.stages|
    requires s.stages[k].phase == Ready && s.stages[k].pc < |P.trace|
    requires s'.queues == s.queues && s'.stages == s.stages[k := s'.stages[k]]
    requires s'.stages[k].phase == Ready && s'.stages[k].pc == s.stages[k].pc + 1
    requires forall a :: !From(P, k, a, s.stages[k].pc) && !From(P, a, k, s.stages[k].pc)
    ensures forall a, b | 0 <= a < |s'.stages| && 0 <= b < |s'.stages| :: QueueInv(P, s', a, b)
  {
    var t := s.stages[k].pc;
    forall a, b | 0 <= a < |s'.stages| && 0 <= b < |s'.stages| ensures QueueInv(P, s', a, b) {
      assert QueueInv(P, s, a, b);
      var q := QueueOf(s, a, b);
      if b == k {
        ConsumerPasses(P, b, a, q, t, Sent(P, s, a, b));
      }
      if a == k {
        ProducerPasses(P, b, a, q, s'.stages[b].pc, t);
      }
    }
  }

  lemma SkipKeepsInv(P: Pipeline, s: System, k: int)
    requires Inv(P, s) && Enabled(P, s, k, Skip)
    ensures Inv(P, Apply(P, s, k, Skip))
  {
    var s' := Apply(P, s, k, Skip);
    assert StageInv(P, s, k);
    SkipKeepsRegisters(P, k, s.stages[k]);
    PassKeepsQueues(P, s, s', k);
    forall j | 0 <= j < |s'.stages| ensures StageInv(P, s', j) {
      assert StageInv(P, s, j);
    }
  }

  lemma ConsumeKeepsQueue(P: Pipeline, s: System, k: int, a: int, b: int)
    requires Inv(P, s) && Enabled(P, s, k, Consume) && 0 <= a < |s.stages| && 0 <= b < |s.stages|
    ensures QueueInv(P, Apply(P, s, k, Consume), a, b)
  {
    var t := s.stages[k].pc;
    var src := P.plans[k].cons[P.trace[t]].0;
    assert From(P, k, src, t);
    assert QueueInv(P, s, a, b);
    var q, sent := QueueOf(s, a, b), Sent(P, s, a, b);
    if b == k && a == src {
      ConsumerTakes(P, k, src, q, t, sent);
    } else if b == k {
      assert !From(P, k, a, t);
      ConsumerPasses(P, b, a, q, t, sent);
      if a == k {
        ProducerPasses(P, b, a, q, t + 1, t);
      }
    } else if a == k {
      assert !From(P, b, k, t);
      ProducerPasses(P, b, a, q, s.stages[b].pc, t);
    }
  }

  lemma ConsumeKeepsInv(P: Pipeline, s: System, k: int)
    requires Inv(P, s) && Enabled(P, s, k, Consume)
    ensures Inv(P, Apply(P, s, k, Consume))
  {
    var s' := Apply(P, s, k, Consume);
    var t := s.stages[k].pc;
    var src := P.plans[k].cons[P.trace[t]].0;
    assert From(P, k, src, t);
    assert QueueInv(P, s, src, k);
    ConsumerTakes(P, k, src, QueueOf(s, src, k), t, Sent(P, s, src, k));
    forall j | 0 <= j < |s'.stages| ensures StageInv(P, s', j) {
      assert StageInv(P, s, j);
    }
    forall a, b | 0 <= a < |s'.stages| && 0 <= b < |s'.stages| ensures QueueInv(P, s', a, b) {
      ConsumeKeepsQueue(P, s, k, a, b);
    }
  }

  lemma ExecuteKeepsInv(P: Pipeline, s: System, k: int)
    requires Inv(P, s) && Enabled(P, s, k, Execute)
    ensures Inv(P, Apply(P, s, k, Execute))
  {
    var s' := Apply(P, s, k, Execute);
    var st := s.stages[k];
    var t := st.pc;
    var i := P.trace[t];
    assert StageInv(P, s, k);
    ExecuteComputesInstance(P, k, st);
    var targets := TargetStages(P, k, i);
    forall j ensures j in targets <==> From(P, j, k, t) { }
    if targets == {} {
      PassKeepsQueues(P, s, s', k);
    } else {
      forall a, b | 0 <= a < |s'.stages| && 0 <= b < |s'.stages| ensures QueueInv(P, s', a, b) {
        assert QueueInv(P, s, a, b);
        assert Sent(P, s', a, b) == Sent(P, s, a, b);
      }
    }
    forall j | 0 <= j < |s'.stages| ensures StageInv(P, s', j) {
      assert StageInv(P, s, j);
    }
  }

  /** What a stage sends is the value of the instance it is at. */
  lemma SendsInstance(P: Pipeline, s: System, k: int, to: int)
    requires Inv(P, s) && Enabled(P, s, k, Send(to))
    ensures s.stages[k].regs[P.trace[s.stages[k].pc]] == Instance(P, s.stages[k].pc)
    ensures From(P, to, k, s.stages[k].pc)
  {
    assert StageInv(P, s, k);
    assert StagePlumbed(P, k);
  }

  /** Sending to one stage is progress for that stage, and for the stages that get nothing once all is sent. */
  lemma SentAfterSend(P: Pipeline, s: System, k: int, to: int, b: int)
    requires Inv(P, s) && Enabled(P, s, k, Send(to)) && 0 <= b < |s.stages|
    ensures var t, s' := s.stages[k].pc, Apply(P, s, k, Send(to));
            && (b == to ==> Sent(P, s, k, b) == t && Sent(P, s', k, b) == t + 1)
            && (b == to || Sent(P, s', k, b) == Sent(P, s, k, b)
                || (Sent(P, s, k, b) == t && Sent(P, s', k, b) == t + 1 && !From(P, b, k, t)))
  {
    assert StageInv(P, s, k);
    var todo := s.stages[k].phase.todo;
    assert b in todo - {to} <==> b in todo && b != to;
    assert From(P, to, k, s.stages[k].pc);
  }

  /** The queues that stage k fills. */
  lemma SendKeepsOutgoing(P: Pipeline, s: System, k: int, to: int, b: int)
    requires Inv(P, s) && Enabled(P, s, k, Send(to)) && 0 <= b < |s.stages|
    ensures QueueMatches(P, b, k, QueueOf(Apply(P, s, k, Send(to)), k, b), s.stages[b].pc, Sent(P, Apply(P, s, k, Send(to)), k, b))
  {
    var s' := Apply(P, s, k, Send(to));
    var t := s.stages[k].pc;
    assert QueueInv(P, s, k, b);
    SendsInstance(P, s, k, to);
    SentAfterSend(P, s, k, to, b);
    if b == to {
      ProducerSends(P, b, k, QueueOf(s, k, b), s.stages[b].pc, t);
    } else if Sent(P, s', k, b) != Sent(P, s, k, b) {
      ProducerPasses(P, b, k, QueueOf(s, k, b), s.stages[b].pc, t);
    }
  }

  lemma SendKeepsQueue(P: Pipeline, s: System, k: int, to: int, a: int, b: int)
    requires Inv(P, s) && Enabled(P, s, k, Send(to)) && 0 <= a < |s.stages| && 0 <= b < |s.stages|
    ensures QueueInv(P, Apply(P, s, k, Send(to)), a, b)
  {
    var s' := Apply(P, s, k, Send(to));
    if a == k {
      SendKeepsOutgoing(P, s, k, to, b);
    } else {
      assert QueueInv(P, s, a, b);
    }
    if b == k && s'.stages[k].pc != s.stages[k].pc {
      assert StageInv(P, s, k);
      ConsumerPasses(P, k, a, QueueOf(s', a, k), s.stages[k].pc, Sent(P, s', a, k));
    }
  }

  lemma SendKeepsInv(P: Pipeline, s: System, k: int, to: int)
    requires Inv(P, s) && Enabled(P, s, k, Send(to))
    ensures Inv(P, Apply(P, s, k, Send(to)))
  {
    var s' := Apply(P, s, k, Send(to));
    forall a, b | 0 <= a < |s'.stages| && 0 <= b < |s'.stages| ensures QueueInv(P, s', a, b) {
      SendKeepsQueue(P, s, k, to, a, b);
    }
    forall j | 0 <= j < |s'.stages| ensures StageInv(P, s', j) {
      assert StageInv(P, s, j);
    }
  }

  lemma StepKeepsInv(P: Pipeline, s: System, k: int, a: Action)
    requires Inv(P, s) && Enabled(P, s, k, a)
    ensures Inv(P, Apply(P, s, k, a))
  {
    match a
    case Skip => SkipKeepsInv(P, s, k);
    case Consume => ConsumeKeepsInv(P, s, k);
    case Execute => ExecuteKeepsInv(P, s, k);
    case Send(j) => SendKeepsInv(P, s, k, j);
  }

  // ----- every interleaving -----

  /** Which stage moves, and how. */
  type Move = (int, Action)

  /** The moves can be made one after the other from s and lead to s'. */
  ghost predicate Leads(P: Pipeline, s: System, moves: seq<Move>, s': System)
    decreases |moves|
  {
    if moves == [] then s == s'
    else Enabled(P, s, moves[0].0, moves[0].1) && Leads(P, Apply(P, s, moves[0].0, moves[0].1), moves[1..], s')
  }

  /** s arises from the start of the pipeline under some scheduling of the stages. */
  ghost predicate Reachable(P: Pipeline, s: System)
  {
    exists moves :: Leads(P, Start(P), moves, s)
  }

  lemma {:induction false} LeadsKeepsInv(P: Pipeline, s: System, moves: seq<Move>, s': System)
    requires Inv(P, s) && Leads(P, s, moves, s')
    ensures Inv(P, s')
    decreases |moves|
  {
    if moves != [] {
      StepKeepsInv(P, s, moves[0].0, moves[0].1);
      LeadsKeepsInv(P, Apply(P, s, moves[0].0, moves[0].1), moves[1..], s');
    }
  }

  lemma ReachableInv(P: Pipeline, s: System)
    requires Plumbed(P) && Reachable(P, s)
    ensures Inv(P, s)
  {
    var moves :| Leads(P, Start(P), moves, s);
    StartInv(P);
    LeadsKeepsInv(P, Start(P), moves, s);
  }

  /** In every interleaving, a consume receives the value that the original loop computed for the instance the
      consumer is at, and an executed instruction computes that value. */
  lemma EveryStepFollowsOriginal(P: Pipeline, s: System, k: int, a: Action)
    requires Plumbed(P) && Reachable(P, s) && Enabled(P, s, k, a) && (a.Consume? || a.Execute?)
    ensures var t, s' := s.stages[k].pc, Apply(P, s, k, a);
            P.trace[t] in s'.stages[k].regs && s'.stages[k].regs[P.trace[t]] == Instance(P, t)
  {
    ReachableInv(P, s);
    var st := s.stages[k];
    assert StageInv(P, s, k);
    if a.Execute? {
      ExecuteComputesInstance(P, k, st);
    } else {
      var src := P.plans[k].cons[P.trace[st.pc]].0;
      assert From(P, k, src, st.pc);
      assert QueueInv(P, s, src, k);
      ConsumerTakes(P, k, src, QueueOf(s, src, k), st.pc, Sent(P, s, src, k));
    }
  }

  // ----- progress -----

  ghost predicate Finished(P: Pipeline, s: System)
  {
    forall k | 0 <= k < |s.stages| :: s.stages[k].pc == |P.trace|
  }

  /** A stage that is not ahead of any other, and ahead of none before it. */
  lemma {:induction false} Slowest(s: System, n: int) returns (k: int)
    requires 0 < n <= |s.stages|
    ensures 0 <= k < n
    ensures forall j | 0 <= j < n :: s.stages[k].pc <= s.stages[j].pc
    ensures forall j | 0 <= j < k :: s.stages[k].pc < s.stages[j].pc
    decreases n
  {
    if n == 1 {
      k := 0;
    } else {
      k := Slowest(s, n - 1);
      if s.stages[n - 1].pc < s.stages[k].pc {
        k := n - 1;
      }
    }
  }

  /** If the producer is past the position, the value is in the queue. */
  lemma ValueWaits(P: Pipeline, k: int, src: int, q: seq<Value>, pc: int, sent: int)
    requires QueueMatches(P, k, src, q, pc, sent) && pc < sent && From(P, k, src, pc)
    ensures q != []
  {
    PendingFront(P, k, src, pc, sent);
  }

  /** If the consumer is not behind what was sent, the queue is empty. */
  lemma NothingWaits(P: Pipeline, k: int, src: int, q: seq<Value>, pc: int, sent: int)
    requires QueueMatches(P, k, src, q, pc, sent) && sent <= pc
    ensures q == []
  {
  }

  lemma SlowestCanMove(P: Pipeline, s: System, k: int) returns (a: Action)
    requires Inv(P, s) && 0 <= k < |s.stages| && s.stages[k].pc < |P.trace|
    requires forall j | 0 <= j < |s.stages| :: s.stages[k].pc <= s.stages[j].pc
    requires forall j | 0 <= j < k :: s.stages[k].pc < s.stages[j].pc
    ensures Enabled(P, s, k, a)
  {
    assert StageInv(P, s, k);
    assert StagePlumbed(P, k);
    var st := s.stages[k];
    var i := P.trace[st.pc];
    if st.phase.Sending? {
      var j := Witness(st.phase.todo);
      assert From(P, j, k, st.pc);
      assert QueueInv(P, s, k, j);
      NothingWaits(P, j, k, QueueOf(s, k, j), s.stages[j].pc, Sent(P, s, k, j));
      a := Send(j);
    } else if i in P.plans[k].cons {
      var src := P.plans[k].cons[i].0;
      assert From(P, k, src, st.pc);
      assert QueueInv(P, s, src, k);
      ValueWaits(P, k, src, QueueOf(s, src, k), st.pc, Sent(P, s, src, k));
      a := Consume;
    } else {
      a := if i in P.plans[k].insts then Execute else Skip;
    }
  }

  /** No reachable unfinished state is deadlocked. */
  lemma NoDeadlock(P: Pipeline, s: System) returns (k: int, a: Action)
    requires Plumbed(P) && Reachable(P, s) && !Finished(P, s)
    ensures Enabled(P, s, k, a)
  {
    ReachableInv(P, s);
    var j :| 0 <= j < |s.stages| && s.stages[j].pc != |P.trace|;
    assert StageInv(P, s, j);
    k := Slowest(s, |s.stages|);
    a := SlowestCanMove(P, s, k);
  }

  // ----- completion -----

  /** A finished pipeline has empty queues, and every stage holds the final values of what it executes or consumes. */
  lemma FinishedAgrees(P: Pipeline, s: System)
    requires Plumbed(P) && Reachable(P, s) && Finished(P, s)
    ensures forall a, b | 0 <= a < |s.stages| && 0 <= b < |s.stages| :: QueueOf(s, a, b) == []
    ensures |s.stages| == |P.plans|
    ensures forall k | 0 <= k < |s.stages| :: SameRegisters(P.plans[k].avail, s.stages[k].regs, Original(P, |P.trace|))
  {
    ReachableInv(P, s);
    forall k | 0 <= k < |s.stages| ensures SameRegisters(P.plans[k].avail, s.stages[k].regs, Original(P, |P.trace|)) {
      assert StageInv(P, s, k);
    }
    forall a, b | 0 <= a < |s.stages| && 0 <= b < |s.stages| ensures QueueOf(s, a, b) == [] {
      assert StageInv(P, s, a);
      assert QueueInv(P, s, a, b);
      NothingWaits(P, b, a, QueueOf(s, a, b), s.stages[b].pc, Sent(P, s, a, b));
    }
  }

  /** How many moves stage k may still make: one per instruction and one per value to send. */
  ghost function Remaining(P: Pipeline, k: int, t: int): int
    requires 0 <= k < |P.produces| && 0 <= t <= |P.trace|
    ensures Remaining(P, k, t) >= 0
    decreases |P.trace| - t
  {
    if t == |P.trace| then 0 else 1 + |TargetStages(P, k, P.trace[t])| + Remaining(P, k, t + 1)
  }

  ghost function StageBudget(P: Pipeline, st: StageState, k: int): int
    requires 0 <= k < |P.produces| && 0 <= st.pc && Reached(st) <= |P.trace|
    ensures StageBudget(P, st, k) >= 0
  {
    if st.phase.Sending? then |st.phase.todo| + Remaining(P, k, st.pc + 1) else Remaining(P, k, st.pc)
  }

  ghost function Budget(P: Pipeline, s: System, n: int): int
    requires Inv(P, s) && 0 <= n <= |s.stages|
    ensures Budget(P, s, n) >= 0
    decreases n
  {
    if n == 0 then 0 else
      assert StageInv(P, s, n - 1);
      Budget(P, s, n - 1) + StageBudget(P, s.stages[n - 1], n - 1)
  }

  /** A move of stage k uses up its budget. */
  lemma MoveUsesBudget(P: Pipeline, s: System, k: int, a: Action)
    requires Inv(P, s) && Enabled(P, s, k, a) && Inv(P, Apply(P, s, k, a))
    requires StageInv(P, s, k) && StageInv(P, Apply(P, s, k, a), k)
    ensures StageBudget(P, Apply(P, s, k, a).stages[k], k) < StageBudget(P, s.stages[k], k)
  {
    var st, st' := s.stages[k], Apply(P, s, k, a).stages[k];
    if a.Send? {
      assert |st.phase.todo - {a.to}| == |st.phase.todo| - 1;
    }
  }

  lemma {:induction false} OthersKeepBudget(P: Pipeline, s: System, k: int, a: Action, n: int)
    requires Inv(P, s) && Enabled(P, s, k, a) && Inv(P, Apply(P, s, k, a)) && 0 <= n <= |s.stages|
    ensures if k < n then Budget(P, Apply(P, s, k, a), n) < Budget(P, s, n) else Budget(P, Apply(P, s, k, a), n) == Budget(P, s, n)
    decreases n
  {
    if n > 0 {
      OthersKeepBudget(P, s, k, a, n - 1);
      assert StageInv(P, s, n - 1);
      assert StageInv(P, Apply(P, s, k, a), n - 1);
      if k == n - 1 {
        MoveUsesBudget(P, s, k, a);
      }
    }
  }

  /** Every run is finite: no schedule makes more moves than the budget of its start. */
  lemma {:induction false} RunsAreFinite(P: Pipeline, s: System, moves: seq<Move>, s': System)
    requires Inv(P, s) && Leads(P, s, moves, s')
    ensures |moves| <= Budget(P, s, |s.stages|)
    decreases |moves|
  {
    if moves != [] {
      var (k, a) := moves[0];
      var next := Apply(P, s, k, a);
      StepKeepsInv(P, s, k, a);
      OthersKeepBudget(P, s, k, a, |s.stages|);
      RunsAreFinite(P, next, moves[1..], s');
    }
  }

  // ----- which stage executes what -----

  /** Stage k runs its own copy of the instruction at position t. */
  ghost predicate Executes(P: Pipeline, k: int, t: int)
  {
    0 <= k < |P.plans| && 0 <= t < |P.trace| && P.trace[t] in P.plans[k].insts && P.trace[t] !in P.plans[k].cons
  }

  /** Which stages executed which positions, move by move. */
  ghost function Executions(P: Pipeline, s: System, moves: seq<Move>, s': System): multiset<(int, int)>
    requires Leads(P, s, moves, s')
    decreases |moves|
  {
    if moves == [] then multiset{}
    else
      var (k, a) := moves[0];
      (if a.Execute? then multiset{(k, s.stages[k].pc)} else multiset{}) + Executions(P, Apply(P, s, k, a), moves[1..], s')
  }

  /** One if stage k has already executed position t, else zero. */
  ghost function Done(P: Pipeline, s: System, k: int, t: int): int
    requires WellTyped(P, s)
  {
    if Executes(P, k, t) && t < Reached(s.stages[k]) then 1 else 0
  }

  lemma StepDoes(P: Pipeline, s: System, k: int, a: Action, j: int, t: int)
    requires Inv(P, s) && Enabled(P, s, k, a)
    ensures WellTyped(P, Apply(P, s, k, a))
    ensures Done(P, Apply(P, s, k, a), j, t) == Done(P, s, j, t) + if a.Execute? && j == k && t == s.stages[k].pc then 1 else 0
  {
    assert StageInv(P, s, k);
  }

  /** A run executes exactly what it moves past, each position once per stage that runs it. */
  lemma {:induction false} ExecutionsAreDone(P: Pipeline, s: System, moves: seq<Move>, s': System, j: int, t: int)
    requires Inv(P, s) && Leads(P, s, moves, s')
    ensures WellTyped(P, s') && Executions(P, s, moves, s')[(j, t)] == Done(P, s', j, t) - Done(P, s, j, t)
    decreases |moves|
  {
    if moves != [] {
      var (k, a) := moves[0];
      StepKeepsInv(P, s, k, a);
      StepDoes(P, s, k, a, j, t);
      ExecutionsAreDone(P, Apply(P, s, k, a), moves[1..], s', j, t);
    }
  }

  lemma FinishedExecutesAll(P: Pipeline, moves: seq<Move>, s: System, k: int, t: int)
    requires Plumbed(P) && Leads(P, Start(P), moves, s) && Finished(P, s)
    ensures Executions(P, Start(P), moves, s)[(k, t)] == if Executes(P, k, t) then 1 else 0
  {
    StartInv(P);
    ExecutionsAreDone(P, Start(P), moves, s, k, t);
  }

  ghost predicate InStage(stages: seq<Stage>, i: Inst, k: int)
  {
    0 <= k < |stages| && i in stages[k].instructions
  }

  ghost predicate InOneStage(stages: seq<Stage>, i: Inst)
  {
    (exists k :: InStage(stages, i, k)) && forall j, k | InStage(stages, i, j) && InStage(stages, i, k) :: j == k
  }

  /** Its effect on memory must happen once: it is no branch, and the partition does not ask for copies of it. */
  ghost predicate Unique(loop: Loop, stages: seq<Stage>, deps: seq<Dep>, i: Inst)
  {
    i in loop.info && loop.info[i].memory && !ControlSource(deps, i) && forall k | 0 <= k < |stages| :: i !in stages[k].replicated
  }

  /** Planning copies no such instruction to another stage, nor lets its own stage consume it. */
  lemma UniqueStaysHome(P: Pipeline, stages: seq<Stage>, deps: seq<Dep>, t: int, k: int, j: int)
    requires EarlierOk(P.loop, stages, deps, P.plans) && |P.plans| == |stages| && 0 <= t < |P.trace|
    requires Unique(P.loop, stages, deps, P.trace[t]) && InOneStage(stages, P.trace[t]) && InStage(stages, P.trace[t], k)
    ensures Executes(P, j, t) <==> j == k
  {
    var i := P.trace[t];
    if 0 <= j < |P.plans| && i in P.plans[j].insts {
      ExecutedAtHome(P.loop, stages, deps, P.plans, i, j);
    }
    assert PlanInv(P.loop, stages, deps, P.plans[..k], k, P.plans[k]);
    if i in P.plans[k].cons {
      var src := P.plans[k].cons[i].0;
      assert SourceOk(P.plans[..k], i, src);
      ExecutedAtHome(P.loop, stages, deps, P.plans, i, src);
    }
  }

  lemma ExecutedAtHome(loop: Loop, stages: seq<Stage>, deps: seq<Dep>, plans: seq<Plan>, i: Inst, j: int)
    requires EarlierOk(loop, stages, deps, plans) && Unique(loop, stages, deps, i)
    requires 0 <= j < |plans| && i in plans[j].insts
    ensures InStage(stages, i, j)
  {
    assert PlanInv(loop, stages, deps, plans[..j], j, plans[j]);
    assert Belongs(loop, stages, deps, j, i);
  }

  lemma {:induction false} TracedIsDefined(P: Pipeline, t: int, n: int)
    requires 0 <= t < n <= |P.trace|
    ensures P.trace[t] in Original(P, n)
    decreases n
  {
    if t < n - 1 {
      TracedIsDefined(P, t, n - 1);
    }
  }

  /** Stage k ends with the value that the original loop leaves for i. */
  ghost predicate Holds(P: Pipeline, s: System, k: int, i: Inst)
  {
    && 0 <= k < |s.stages| && i in s.stages[k].regs && i in Original(P, |P.trace|)
    && s.stages[k].regs[i] == Original(P, |P.trace|)[i]
  }

  lemma HomeHoldsValue(P: Pipeline, stages: seq<Stage>, deps: seq<Dep>, s: System, t: int, k: int)
    requires EarlierOk(P.loop, stages, deps, P.plans) && |P.plans| == |stages| == |s.stages|
    requires 0 <= t < |P.trace| && InStage(stages, P.trace[t], k)
    requires SameRegisters(P.plans[k].avail, s.stages[k].regs, Original(P, |P.trace|))
    ensures Holds(P, s, k, P.trace[t])
  {
    assert PlanInv(P.loop, stages, deps, P.plans[..k], k, P.plans[k]);
    TracedIsDefined(P, t, |P.trace|);
  }

  // ----- the whole chain -----

  /** P runs the code planned by the strategy, over a trace of which the partition holds every instruction once. */
  ghost predicate Runs(P: Pipeline, strategy: PreparedStrategy)
    reads strategy
  {
    && strategy.Valid() && |strategy.plans| == |strategy.stages|
    && P.loop == strategy.loop && P.plans == strategy.plans && P.produces == strategy.produces && P.capacity >= 1
    && forall t | 0 <= t < |P.trace| :: P.trace[t] in P.loop.info && InOneStage(strategy.stages, P.trace[t])
  }

  /** Whatever the scheduling and the queue capacity, the stages planned for an ordered partition never get stuck
      before the end, and compute what the original loop computes. */
  lemma PreparedPipelineIsCorrect(P: Pipeline, strategy: PreparedStrategy, moves: seq<Move>, s: System)
    requires Runs(P, strategy) && Leads(P, Start(P), moves, s)
    ensures Inv(P, Start(P)) && |moves| <= Budget(P, Start(P), |P.plans|)
    ensures !Finished(P, s) ==> exists k, a :: Enabled(P, s, k, a)
    ensures |s.stages| == |P.plans|
    ensures Finished(P, s) ==> forall k | 0 <= k < |s.stages| :: SameRegisters(P.plans[k].avail, s.stages[k].regs, Original(P, |P.trace|))
  {
    PreparedIsPlumbed(P, strategy.stages, strategy.deps, strategy.queues);
    StartInv(P);
    RunsAreFinite(P, Start(P), moves, s);
    ReachableInv(P, s);
    if Finished(P, s) {
      FinishedAgrees(P, s);
    } else {
      var k, a := NoDeadlock(P, s);
    }
  }

  /** A finished pipeline has lost nothing and repeated nothing: the stage of each traced instruction holds its final
      value, and each effect on memory has happened once per position, in that stage alone. */
  lemma PreparedPipelineIsComplete(P: Pipeline, strategy: PreparedStrategy, moves: seq<Move>, s: System, t: int, k: int)
    requires Runs(P, strategy) && Leads(P, Start(P), moves, s) && Finished(P, s)
    requires 0 <= t < |P.trace| && InStage(strategy.stages, P.trace[t], k)
    ensures Holds(P, s, k, P.trace[t])
    ensures Unique(P.loop, strategy.stages, strategy.deps, P.trace[t]) ==>
            forall j :: Executions(P, Start(P), moves, s)[(j, t)] == if j == k then 1 else 0
  {
    PreparedIsPlumbed(P, strategy.stages, strategy.deps, strategy.queues);
    PreparedPipelineIsCorrect(P, strategy, moves, s);
    HomeHoldsValue(P, strategy.stages, strategy.deps, s, t, k);
    if Unique(P.loop, strategy.stages, strategy.deps, P.trace[t]) {
      forall j ensures Executions(P, Start(P), moves, s)[(j, t)] == if j == k then 1 else 0 {
        UniqueStaysHome(P, strategy.stages, strategy.deps, t, k, j);
        FinishedExecutesAll(P, moves, s, j, t);
      }
    }
  }
}
