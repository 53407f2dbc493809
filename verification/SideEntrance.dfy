/** Cloning functions so that the region of interest has no entrance from outside. */
module SideEntrance {

  type Fn = int

  /** An instruction: its opcode, whether it is a call, and its function operands, the callee first. */
  datatype Inst = Inst(op: int, call: bool, fns: seq<Fn>)

  datatype Block = Block(insts: seq<Inst>, succs: seq<int>)

  /** Bodies of the defined functions; the entry block is number 0. */
  type Module = map<Fn, seq<Block>>

  type BlockRef = (Fn, int)
  type Renaming = map<Fn, Fn>

  // ----- what a program does -----

  datatype Frame = Frame(fn: Fn, block: int, idx: int)

  datatype Option<T> = None | Some(value: T)

  predicate InCode(m: Module, f: Frame)
  {
    f.fn in m && 0 <= f.block < |m[f.fn]| && 0 <= f.idx <= |m[f.fn][f.block].insts|
  }

  /** The instruction that is about to execute. */
  function Current(m: Module, stack: seq<Frame>): Option<int>
  {
    if stack != [] && InCode(m, stack[|stack| - 1]) then
      var f := stack[|stack| - 1];
      var insts := m[f.fn][f.block].insts;
      if f.idx < |insts| then Some(insts[f.idx].op) else None
    else None
  }

  /** One step: a call of a defined function pushes its entry, the end of a block goes to the chosen
      successor or returns, and any other instruction is passed. */
  function Step(m: Module, stack: seq<Frame>, choice: nat): Option<seq<Frame>>
  {
    if stack == [] || !InCode(m, stack[|stack| - 1]) then None
    else
      var below, f := stack[..|stack| - 1], stack[|stack| - 1];
      var b := m[f.fn][f.block];
      if f.idx < |b.insts| then
        var inst := b.insts[f.idx];
        var next := below + [f.(idx := f.idx + 1)];
        if inst.call && inst.fns != [] && inst.fns[0] in m then Some(next + [Frame(inst.fns[0], 0, 0)]) else Some(next)
      else if b.succs == [] then Some(below)
      else if choice < |b.succs| then Some(below + [Frame(f.fn, b.succs[choice], 0)])
      else None
  }

  function Run(m: Module, stack: seq<Frame>, choices: seq<nat>): Option<seq<Frame>>
    decreases |choices|
  {
    if choices == [] then Some(stack)
    else match Step(m, stack, choices[0])
      case None => None
      case Some(next) => Run(m, next, choices[1..])
  }

  /** What runs on top of a stack leaves the stack below as it is. */
  lemma {:induction false} RunOnTop(m: Module, below: seq<Frame>, top: seq<Frame>, choices: seq<nat>)
    requires Run(m, top, choices).Some?
    ensures Run(m, below + top, choices) == Some(below + Run(m, top, choices).value)
    decreases |choices|
  {
    if choices != [] {
      StepOnTop(m, below, top, choices[0]);
      RunOnTop(m, below, Step(m, top, choices[0]).value, choices[1..]);
    }
  }

  lemma StepOnTop(m: Module, below: seq<Frame>, top: seq<Frame>, choice: nat)
    requires Step(m, top, choice).Some?
    ensures Step(m, below + top, choice) == Some(below + Step(m, top, choice).value)
  {
    var f := top[|top| - 1];
    var rest := top[..|top| - 1];
    assert (below + top)[|below + top| - 1] == f && (below + top)[..|below + top| - 1] == below + rest;
    var b := m[f.fn][f.block];
    if f.idx < |b.insts| {
      var next := f.(idx := f.idx + 1);
      assert (below + rest) + [next] == below + (rest + [next]);
      if b.insts[f.idx].call && b.insts[f.idx].fns != [] {
        var entry := Frame(b.insts[f.idx].fns[0], 0, 0);
        assert (below + rest) + [next] + [entry] == below + (rest + [next] + [entry]);
      }
    } else if b.succs != [] && choice < |b.succs| {
      var to := Frame(f.fn, b.succs[choice], 0);
      assert (below + rest) + [to] == below + (rest + [to]);
    }
  }

  /** A call of a defined function that returns comes back behind the call, to the stack of the caller. */
  lemma CallReturns(m: Module, below: seq<Frame>, f: Frame, choice: nat, choices: seq<nat>)
    requires f.fn in m && 0 <= f.block < |m[f.fn]| && 0 <= f.idx < |m[f.fn][f.block].insts|
    requires var inst := m[f.fn][f.block].insts[f.idx];
             inst.call && inst.fns != [] && inst.fns[0] in m && Run(m, [Frame(inst.fns[0], 0, 0)], choices) == Some([])
    ensures Current(m, below + [f]) == Some(m[f.fn][f.block].insts[f.idx].op)
    ensures Run(m, below + [f], [choice] + choices) == Some(below + [f.(idx := f.idx + 1)])
  {
    var inst, next := m[f.fn][f.block].insts[f.idx], f.(idx := f.idx + 1);
    var stack := below + [f];
    assert stack[..|stack| - 1] == below;
    assert Step(m, stack, choice) == Some(below + [next] + [Frame(inst.fns[0], 0, 0)]);
    RunOnTop(m, below + [next], [Frame(inst.fns[0], 0, 0)], choices);
    assert ([choice] + choices)[1..] == choices;
    assert below + [next] + [] == below + [next];
  }

  /** Every body has an entry block, and every successor is a block of the same body. */
  ghost predicate WellFormed(m: Module)
  {
    && (forall f | f in m :: m[f] != [])
    && (forall f, b, s | f in m && 0 <= b < |m[f]| && s in m[f][b].succs :: 0 <= s < |m[f]|)
  }

  ghost predicate WithinCode(m: Module, stack: seq<Frame>)
  {
    forall k | 0 <= k < |stack| ::
      var f := stack[k];
      f.fn in m && 0 <= f.block < |m[f.fn]| && 0 <= f.idx <= |m[f.fn][f.block].insts|
  }

  /** A run that has not returned goes on, and stays within the code; all it needs is a successor that exists where a
      block has any. */
  lemma NeverStuck(m: Module, stack: seq<Frame>, choice: nat)
    requires WellFormed(m) && WithinCode(m, stack) && stack != []
    ensures var f := stack[|stack| - 1];
            var b := m[f.fn][f.block];
            Step(m, stack, choice).Some? <==> f.idx < |b.insts| || b.succs == [] || choice < |b.succs|
    ensures Step(m, stack, choice).Some? ==> WithinCode(m, Step(m, stack, choice).value)
  {
    var f := stack[|stack| - 1];
    var b := m[f.fn][f.block];
    assert choice < |b.succs| ==> b.succs[choice] in b.succs;
  }

  // ----- clones and their originals -----

  function Original(origin: Renaming, f: Fn): Fn
  {
    if f in origin then origin[f] else f
  }

  function OriginalInst(origin: Renaming, i: Inst): Inst
  {
    i.(fns := seq(|i.fns|, k requires 0 <= k < |i.fns| => Original(origin, i.fns[k])))
  }

  /** Reading every clone as its original turns block b into block b0. */
  ghost predicate SameBlock(origin: Renaming, b: Block, b0: Block)
  {
    && b.succs == b0.succs
    && |b.insts| == |b0.insts|
    && forall i | 0 <= i < |b.insts| :: OriginalInst(origin, b.insts[i]) == b0.insts[i]
  }

  ghost predicate SameBody(origin: Renaming, body: seq<Block>, body0: seq<Block>)
  {
    |body| == |body0| && forall b | 0 <= b < |body| :: SameBlock(origin, body[b], body0[b])
  }

  /** m is m0 with some functions cloned: the clones are new names, and every body, read through the
      clone-to-original map, is the body of the original. */
  ghost predicate CloneOf(m: Module, m0: Module, origin: Renaming)
  {
    && m.Keys == m0.Keys + origin.Keys
    && (forall f | f in origin :: f !in m0 && origin[f] in m0)
    && (forall f {:trigger m[f]} | f in m :: SameBody(origin, m[f], m0[Original(origin, f)]))
  }

  /** Instruction i of block b of function f has g among its operands. */
  ghost predicate Uses(m: Module, f: Fn, b: int, i: int, g: Fn)
  {
    f in m && 0 <= b < |m[f]| && 0 <= i < |m[f][b].insts| && g in m[f][b].insts[i].fns
  }

  /** All names that occur in the module are below n. */
  ghost predicate NamesBelow(m: Module, n: int)
  {
    (forall f | f in m :: f < n) && forall f, b, i, g | Uses(m, f, b, i, g) :: g < n
  }

  function OriginalStack(origin: Renaming, stack: seq<Frame>): seq<Frame>
  {
    seq(|stack|, i requires 0 <= i < |stack| => stack[i].(fn := Original(origin, stack[i].fn)))
  }

  ghost function OriginalResult(origin: Renaming, r: Option<seq<Frame>>): Option<seq<Frame>>
  {
    match r
    case None => None
    case Some(s) => Some(OriginalStack(origin, s))
  }

  lemma StackSplit(origin: Renaming, below: seq<Frame>, top: seq<Frame>)
    ensures OriginalStack(origin, below + top) == OriginalStack(origin, below) + OriginalStack(origin, top)
  {
  }

  lemma DefinedTogether(m: Module, m0: Module, origin: Renaming, g: Fn)
    requires CloneOf(m, m0, origin)
    ensures g in m <==> Original(origin, g) in m0
  {
    assert g in m <==> g in m0 || g in origin;
  }

  /** A clone takes the same step as its original. */
  lemma SameStep(m: Module, m0: Module, origin: Renaming, stack: seq<Frame>, choice: nat)
    requires CloneOf(m, m0, origin)
    ensures Current(m, stack) == Current(m0, OriginalStack(origin, stack))
    ensures OriginalResult(origin, Step(m, stack, choice)) == Step(m0, OriginalStack(origin, stack), choice)
  {
    if stack != [] {
      var below, f := stack[..|stack| - 1], stack[|stack| - 1];
      var f0 := f.(fn := Original(origin, f.fn));
      assert stack == below + [f];
      StackSplit(origin, below, [f]);
      assert OriginalStack(origin, [f]) == [f0];
      var stack0 := OriginalStack(origin, stack);
      assert stack0[|stack0| - 1] == f0 && stack0[..|stack0| - 1] == OriginalStack(origin, below);
      DefinedTogether(m, m0, origin, f.fn);
      if f.fn in m {
        assert SameBody(origin, m[f.fn], m0[f0.fn]);
      }
      if InCode(m, f) {
        var b, b0 := m[f.fn][f.block], m0[f0.fn][f.block];
        assert SameBlock(origin, b, b0);
        StepTop(m, m0, origin, below, f, choice);
      }
    }
  }

  lemma StepTop(m: Module, m0: Module, origin: Renaming, below: seq<Frame>, f: Frame, choice: nat)
    requires CloneOf(m, m0, origin) && InCode(m, f)
    requires InCode(m0, f.(fn := Original(origin, f.fn)))
    requires SameBlock(origin, m[f.fn][f.block], m0[Original(origin, f.fn)][f.block])
    ensures var f0 := f.(fn := Original(origin, f.fn));
            OriginalResult(origin, Step(m, below + [f], choice)) == Step(m0, OriginalStack(origin, below) + [f0], choice)
  {
    var f0 := f.(fn := Original(origin, f.fn));
    var below0 := OriginalStack(origin, below);
    var b, b0 := m[f.fn][f.block], m0[f0.fn][f.block];
    assert (below + [f])[..|below|] == below && (below0 + [f0])[..|below0|] == below0;
    if f.idx < |b.insts| {
      var inst, inst0 := b.insts[f.idx], b0.insts[f.idx];
      assert OriginalInst(origin, inst) == inst0;
      StackSplit(origin, below, [f.(idx := f.idx + 1)]);
      assert OriginalStack(origin, [f.(idx := f.idx + 1)]) == [f0.(idx := f.idx + 1)];
      if inst.call && inst.fns != [] {
        DefinedTogether(m, m0, origin, inst.fns[0]);
        assert inst0.fns[0] == Original(origin, inst.fns[0]);
        StackSplit(origin, below + [f.(idx := f.idx + 1)], [Frame(inst.fns[0], 0, 0)]);
        assert OriginalStack(origin, [Frame(inst.fns[0], 0, 0)]) == [Frame(inst0.fns[0], 0, 0)];
      }
    } else if b.succs != [] && choice < |b.succs| {
      StackSplit(origin, below, [Frame(f.fn, b.succs[choice], 0)]);
      assert OriginalStack(origin, [Frame(f.fn, b.succs[choice], 0)]) == [Frame(f0.fn, b.succs[choice], 0)];
    }
  }

  /** Every run of the cloned program is, up to the names of clones, a run of the original, and conversely. */
  lemma {:induction false} SameRun(m: Module, m0: Module, origin: Renaming, stack: seq<Frame>, choices: seq<nat>)
    requires CloneOf(m, m0, origin)
    ensures OriginalResult(origin, Run(m, stack, choices)) == Run(m0, OriginalStack(origin, stack), choices)
    ensures Current(m, stack) == Current(m0, OriginalStack(origin, stack))
    decreases |choices|
  {
    SameStep(m, m0, origin, stack, if choices == [] then 0 else choices[0]);
    if choices != [] {
      var next := Step(m, stack, choices[0]);
      if next.Some? {
        SameRun(m, m0, origin, next.value, choices[1..]);
      }
    }
  }

  lemma NothingCloned(m: Module)
    ensures CloneOf(m, m, map[])
  {
    forall f | f in m ensures SameBody(map[], m[f], m[f]) {
      forall b, i | 0 <= b < |m[f]| && 0 <= i < |m[f][b].insts| ensures OriginalInst(map[], m[f][b].insts[i]) == m[f][b].insts[i] {
        assert OriginalInst(map[], m[f][b].insts[i]).fns == m[f][b].insts[i].fns;
      }
    }
  }

  /** A name that a body does not use does not matter to it. */
  lemma UnusedName(origin: Renaming, m: Module, f: Fn, body0: seq<Block>, c: Fn, o: Fn)
    requires f in m && SameBody(origin, m[f], body0) && forall b, i :: !Uses(m, f, b, i, c)
    ensures SameBody(origin[c := o], m[f], body0)
  {
    var origin' := origin[c := o];
    forall b | 0 <= b < |m[f]| ensures SameBlock(origin', m[f][b], body0[b]) {
      assert SameBlock(origin, m[f][b], body0[b]);
      forall i | 0 <= i < |m[f][b].insts| ensures OriginalInst(origin', m[f][b].insts[i]) == body0[b].insts[i] {
        var inst := m[f][b].insts[i];
        assert !Uses(m, f, b, i, c);
        assert forall k | 0 <= k < |inst.fns| :: inst.fns[k] in inst.fns;
        assert OriginalInst(origin', inst).fns == OriginalInst(origin, inst).fns;
        assert OriginalInst(origin, inst) == body0[b].insts[i];
      }
    }
  }

  /** Adding a clone of f under a new name. */
  lemma AddClone(m: Module, m0: Module, origin: Renaming, f: Fn, c: Fn)
    requires CloneOf(m, m0, origin) && f in m && NamesBelow(m, c) && c !in origin && c !in m0
    ensures CloneOf(m[c := m[f]], m0, origin[c := Original(origin, f)])
  {
    var o := Original(origin, f);
    var m', origin' := m[c := m[f]], origin[c := o];
    DefinedTogether(m, m0, origin, f);
    forall x | x in m' ensures SameBody(origin', m'[x], m0[Original(origin', x)]) {
      var y := if x == c then f else x;
      assert SameBody(origin, m[y], m0[Original(origin, y)]);
      UnusedName(origin, m, y, m0[Original(origin, y)], c, o);
    }
  }

  function Replace(fns: seq<Fn>, f: Fn, c: Fn): seq<Fn>
  {
    seq(|fns|, k requires 0 <= k < |fns| => if fns[k] == f then c else fns[k])
  }

  /** The module with f replaced by c in one instruction. */
  function ReplaceUse(m: Module, g: Fn, b: int, i: int, f: Fn, c: Fn): Module
    requires g in m && 0 <= b < |m[g]| && 0 <= i < |m[g][b].insts|
  {
    var inst := m[g][b].insts[i];
    var block := m[g][b].(insts := m[g][b].insts[i := inst.(fns := Replace(inst.fns, f, c))]);
    m[g := m[g][b := block]]
  }

  /** Calling the clone instead of the original is the same thing, read through the clone map. */
  lemma ReplaceKeepsClone(m: Module, m0: Module, origin: Renaming, g: Fn, b: int, i: int, f: Fn, c: Fn)
    requires CloneOf(m, m0, origin) && g in m && 0 <= b < |m[g]| && 0 <= i < |m[g][b].insts|
    requires Original(origin, c) == Original(origin, f)
    ensures CloneOf(ReplaceUse(m, g, b, i, f, c), m0, origin)
  {
    var m' := ReplaceUse(m, g, b, i, f, c);
    assert m'.Keys == m.Keys;
    forall x | x in m' ensures SameBody(origin, m'[x], m0[Original(origin, x)]) {
      assert SameBody(origin, m[x], m0[Original(origin, x)]);
      if x == g {
        var inst := m[g][b].insts[i];
        assert SameBlock(origin, m[g][b], m0[Original(origin, x)][b]);
        assert OriginalInst(origin, inst.(fns := Replace(inst.fns, f, c))).fns == OriginalInst(origin, inst).fns;
        assert OriginalInst(origin, m'[g][b].insts[i]) == OriginalInst(origin, inst);
        forall d | 0 <= d < |m'[g]| ensures SameBlock(origin, m'[g][d], m0[Original(origin, x)][d]) {
          assert SameBlock(origin, m[g][d], m0[Original(origin, x)][d]);
        }
      }
    }
  }

  // ----- the region of interest -----

  ghost predicate HasBlock(m: Module, f: Fn, b: int)
  {
    f in m && 0 <= b < |m[f]|
  }

  ghost function AllBlocks(m: Module): set<BlockRef>
  {
    set f, b | f in m && 0 <= b < |m[f]| :: (f, b)
  }

  /** A block outside the region uses a function of the region. */
  ghost predicate SideEntry(m: Module, bbs: set<BlockRef>, fcns: set<Fn>, g: Fn, b: int, i: int, f: Fn)
  {
    f in fcns && Uses(m, g, b, i, f) && (g, b) !in bbs
  }

  ghost function SideEntries(m: Module, bbs: set<BlockRef>, fcns: set<Fn>): set<(Fn, int, int, Fn)>
  {
    set g, b, i, f | g in m && 0 <= b < |m[g]| && 0 <= i < |m[g][b].insts| && f in fcns && SideEntry(m, bbs, fcns, g, b, i, f) :: (g, b, i, f)
  }

  lemma InSideEntries(m: Module, bbs: set<BlockRef>, fcns: set<Fn>, g: Fn, b: int, i: int, f: Fn)
    ensures SideEntry(m, bbs, fcns, g, b, i, f) <==> (g, b, i, f) in SideEntries(m, bbs, fcns)
  {
  }

  /** Redirecting one use to a clone removes that entry and adds none. */
  lemma FewerEntries(m: Module, bbs: set<BlockRef>, fcns: set<Fn>, g: Fn, b: int, i: int, f: Fn, c: Fn)
    requires SideEntry(m, bbs, fcns, g, b, i, f) && c !in fcns
    ensures SideEntries(ReplaceUse(m, g, b, i, f, c), bbs, fcns) < SideEntries(m, bbs, fcns)
  {
    var m' := ReplaceUse(m, g, b, i, f, c);
    var inst := m[g][b].insts[i];
    assert f !in Replace(inst.fns, f, c);
    forall x, y, z, h | SideEntry(m', bbs, fcns, x, y, z, h) ensures SideEntry(m, bbs, fcns, x, y, z, h) {
      if (x, y, z) == (g, b, i) {
        assert m'[x][y].insts[z].fns == Replace(inst.fns, f, c);
        var k :| 0 <= k < |inst.fns| && Replace(inst.fns, f, c)[k] == h;
        assert inst.fns[k] == h;
      }
    }
    InSideEntries(m, bbs, fcns, g, b, i, f);
    InSideEntries(m', bbs, fcns, g, b, i, f);
  }

  lemma NamesStayBelow(m: Module, n: int, g: Fn, b: int, i: int, f: Fn, c: Fn)
    requires NamesBelow(m, n) && g in m && 0 <= b < |m[g]| && 0 <= i < |m[g][b].insts| && c < n
    ensures NamesBelow(ReplaceUse(m, g, b, i, f, c), n)
  {
    var m' := ReplaceUse(m, g, b, i, f, c);
    var inst := m[g][b].insts[i];
    forall x, y, z, h | Uses(m', x, y, z, h) ensures h < n {
      if (x, y, z) == (g, b, i) {
        var k :| 0 <= k < |inst.fns| && Replace(inst.fns, f, c)[k] == h;
        assert inst.fns[k] in inst.fns;
        assert Uses(m, g, b, i, inst.fns[k]);
      } else {
        assert Uses(m, x, y, z, h);
      }
    }
  }

  lemma CloneNamesBelow(m: Module, n: int, f: Fn)
    requires NamesBelow(m, n) && f in m
    ensures NamesBelow(m[n := m[f]], n + 1)
  {
    var m' := m[n := m[f]];
    forall x, y, z, h | Uses(m', x, y, z, h) ensures h < n + 1 {
      assert Uses(m, if x == n then f else x, y, z, h);
    }
  }

  /** Every direct call of a defined function from block b of f has its callee, with all blocks, inside. */
  ghost predicate CallsInside(m: Module, bbs: set<BlockRef>, fcns: set<Fn>, f: Fn, b: int)
    requires HasBlock(m, f, b)
  {
    forall i | 0 <= i < |m[f][b].insts| :: CalleeInside(m, bbs, fcns, m[f][b].insts[i])
  }

  ghost predicate CalleeInside(m: Module, bbs: set<BlockRef>, fcns: set<Fn>, inst: Inst)
  {
    inst.call && inst.fns != [] && inst.fns[0] in m ==>
      inst.fns[0] in fcns && forall j | 0 <= j < |m[inst.fns[0]]| :: (inst.fns[0], j) in bbs
  }

  /** A set of blocks and functions that direct calls do not leave. */
  ghost predicate CallClosed(m: Module, bbs: set<BlockRef>, fcns: set<Fn>)
  {
    forall f: Fn, b: int | (f, b) in bbs :: HasBlock(m, f, b) && CallsInside(m, bbs, fcns, f, b)
  }

  /** The blocks of the region are the same in both modules. */
  ghost predicate SameInside(m: Module, m': Module, bbs: set<BlockRef>)
  {
    forall f: Fn, b: int | (f, b) in bbs && HasBlock(m, f, b) :: HasBlock(m', f, b) && m'[f][b] == m[f][b]
  }

  lemma InsideTwice(a: Module, b: Module, c: Module, bbs: set<BlockRef>)
    requires SameInside(a, b, bbs) && SameInside(b, c, bbs)
    ensures SameInside(a, c, bbs)
  {
  }

  class RoI {
    var code: Module
    var bbs: set<BlockRef>
    var fcns: set<Fn>
    var cloned: Renaming
    var nextName: int
    ghost var code0: Module
    ghost var origin: Renaming

    /** Starts with an empty region over the given code. */
    constructor (m: Module, n: int)
      requires NamesBelow(m, n)
      ensures code == m && bbs == {} && fcns == {} && Valid() && code0 == m && origin == map[]
    {
      code, bbs, fcns, cloned, nextName := m, {}, {}, map[], n;
      code0, origin := m, map[];
      NothingCloned(m);
    }

    ghost predicate Valid()
      reads this
    {
      && CloneOf(code, code0, origin)
      && NamesBelow(code, nextName)
      && (forall c | c in origin :: c < nextName)
      && fcns <= code0.Keys
      && (forall f | f in cloned :: cloned[f] in origin && origin[cloned[f]] == f)
    }

    /** Adds a block and, through direct calls, all blocks of the functions it reaches. */
    method Sweep(f: Fn, b: int)
      requires HasBlock(code, f, b)
      modifies this`bbs, this`fcns
      ensures old(bbs) <= bbs && old(fcns) <= fcns <= old(fcns) + code.Keys && (f, b) in bbs
      ensures forall g: Fn, d: int | (g, d) in bbs && (g, d) !in old(bbs) :: HasBlock(code, g, d) && CallsInside(code, bbs, fcns, g, d)
      ensures forall S, F | CallClosed(code, S, F) && (f, b) in S :: bbs <= old(bbs) + S && fcns <= old(fcns) + F
      decreases AllBlocks(code) - bbs
    {
      if (f, b) in bbs {
        return;
      }
      bbs := bbs + {(f, b)};
      var insts := code[f][b].insts;
      for i := 0 to |insts|
        invariant old(bbs) + {(f, b)} <= bbs && old(fcns) <= fcns <= old(fcns) + code.Keys
        invariant forall g: Fn, d: int | (g, d) in bbs && (g, d) !in old(bbs) && (g, d) != (f, b) ::
                    HasBlock(code, g, d) && CallsInside(code, bbs, fcns, g, d)
        invariant forall k | 0 <= k < i :: CalleeInside(code, bbs, fcns, insts[k])
        invariant forall S, F | CallClosed(code, S, F) && (f, b) in S :: bbs <= old(bbs) + S && fcns <= old(fcns) + F
      {
        var inst := insts[i];
        if inst.call && inst.fns != [] && inst.fns[0] in code {
          var callee := inst.fns[0];
          for j := 0 to |code[callee]|
            invariant old(bbs) + {(f, b)} <= bbs && old(fcns) <= fcns <= old(fcns) + code.Keys
            invariant forall g: Fn, d: int | (g, d) in bbs && (g, d) !in old(bbs) && (g, d) != (f, b) ::
                        HasBlock(code, g, d) && CallsInside(code, bbs, fcns, g, d)
            invariant forall k | 0 <= k < i :: CalleeInside(code, bbs, fcns, insts[k])
            invariant forall l | 0 <= l < j :: (callee, l) in bbs
            invariant forall S, F | CallClosed(code, S, F) && (f, b) in S :: bbs <= old(bbs) + S && fcns <= old(fcns) + F
          {
            Sweep(callee, j);
          }
          fcns := fcns + {callee};
        }
      }
    }

    ghost function Entries(): set<(Fn, int, int, Fn)>
      reads this
    {
      SideEntries(code, bbs, fcns)
    }

    /** Creates the clone of f under a new name; everything else stays. */
    method CloneFunction(f: Fn)
      requires Valid() && f in fcns && f !in cloned
      modifies this`code, this`cloned, this`nextName, this`origin
      ensures Valid()
      ensures code == old(code)[old(nextName) := old(code)[f]] && old(nextName) !in old(code)
      ensures cloned == old(cloned)[f := old(nextName)] && SameInside(old(code), code, bbs)
    {
      DefinedTogether(code, code0, origin, f);
      assert f in code0;
      AddClone(code, code0, origin, f, nextName);
      CloneNamesBelow(code, nextName, f);
      origin := origin[nextName := Original(origin, f)];
      code := code[nextName := code[f]];
      cloned := cloned[f := nextName];
      nextName := nextName + 1;
    }

    /** Replaces f by its clone in one instruction outside the region. */
    method Redirect(g: Fn, b: int, i: int, f: Fn)
      requires Valid() && f in cloned && SideEntry(code, bbs, fcns, g, b, i, f)
      modifies this`code
      ensures Valid() && code == ReplaceUse(old(code), g, b, i, f, cloned[f])
      ensures Entries() < old(Entries()) && SameInside(old(code), code, bbs)
    {
      FewerEntries(code, bbs, fcns, g, b, i, f, cloned[f]);
      assert f in code0;
      ReplaceKeepsClone(code, code0, origin, g, b, i, f, cloned[f]);
      NamesStayBelow(code, nextName, g, b, i, f, cloned[f]);
      code := ReplaceUse(code, g, b, i, f, cloned[f]);
    }

    /** Redirects one use of a region function from outside to a clone, which it creates on first need. */
    method ResolveOneSideEntrance() returns (changed: bool)
      requires Valid()
      modifies this`code, this`cloned, this`nextName, this`origin
      ensures Valid()
      ensures changed ==> (fcns - cloned.Keys < old(fcns - cloned.Keys)
                           || (fcns - cloned.Keys == old(fcns - cloned.Keys) && Entries() < old(Entries())))
      ensures SameInside(old(code), code, bbs)
      ensures !changed ==> code == old(code) && cloned == old(cloned) && origin == old(origin) && Entries() == {}
    {
      if g, b, i, f :| g in code && 0 <= b < |code[g]| && 0 <= i < |code[g][b].insts| && f in fcns
                       && f in code[g][b].insts[i].fns && (g, b) !in bbs {
        assert SideEntry(code, bbs, fcns, g, b, i, f);
        if f !in cloned {
          CloneFunction(f);
          assert f in old(fcns - cloned.Keys) && f !in fcns - cloned.Keys;
        }
        ghost var between := code;
        Redirect(g, b, i, f);
        InsideTwice(old(code), between, code, bbs);
        return true;
      }
      assert forall g: Fn, b: int, i: int, f: Fn :: !SideEntry(code, bbs, fcns, g, b, i, f);
      return false;
    }

    /** Repeats until nothing outside the region uses a function of the region. The result does what the
        original did, up to the names of clones. */
    method ResolveSideEntrances() returns (modified: bool)
      requires Valid()
      modifies this`code, this`cloned, this`nextName, this`origin
      ensures Valid()
      ensures forall g: Fn, b: int, i: int, f: Fn :: !SideEntry(code, bbs, fcns, g, b, i, f)
      ensures forall stack: seq<Frame>, choices: seq<nat> ::
                OriginalResult(origin, Run(code, stack, choices)) == Run(code0, OriginalStack(origin, stack), choices)
      ensures SameInside(old(code), code, bbs) && (!modified ==> code == old(code))
    {
      modified := false;
      while true
        invariant Valid() && SameInside(old(code), code, bbs) && (!modified ==> code == old(code))
        decreases fcns - cloned.Keys, Entries()
      {
        ghost var before := code;
        var changed := ResolveOneSideEntrance();
        InsideTwice(old(code), before, code, bbs);
        if !changed {
          break;
        }
        modified := true;
      }
      forall g: Fn, b: int, i: int, f: Fn ensures !SideEntry(code, bbs, fcns, g, b, i, f) {
        InSideEntries(code, bbs, fcns, g, b, i, f);
      }
      forall stack: seq<Frame>, choices: seq<nat>
        ensures OriginalResult(origin, Run(code, stack, choices)) == Run(code0, OriginalStack(origin, stack), choices)
      {
        SameRun(code, code0, origin, stack, choices);
      }
    }
  }
}
