/** Words of begin and end events: which of them nest, and what a context stack makes of them. */
module EventWords {
  type Context = seq<int>

  datatype Event = Begin(ctx: int) | End(ctx: int)

  /** What running events on a stack comes to: a stack, an end that does not match the top, or a look at the top of an
      empty stack, which is undefined. */
  datatype Outcome = Nested(ctx: Context) | Mismatch | Underflow

  /** The context stack after the events. */
  function Run(ctx: Context, events: seq<Event>): Outcome
    decreases |events|
  {
    if events == [] then Nested(ctx)
    else match events[0]
      case Begin(c) => Run(ctx + [c], events[1..])
      case End(c) =>
        if ctx == [] then Underflow
        else if ctx[|ctx| - 1] == c then Run(ctx[..|ctx| - 1], events[1..])
        else Mismatch
  }

  // ----- words, without a stack -----

  /** Empty, or Begin(c) u End(c) v with u and v balanced. */
  ghost predicate Balanced(w: seq<Event>)
    decreases |w|, 1
  {
    w == [] || exists k :: ClosedAt(w, k)
  }

  /** The first event begins what the event at k ends, with balanced words between and behind. */
  ghost predicate ClosedAt(w: seq<Event>, k: int)
    decreases |w|, 0
  {
    0 < k < |w| && w[0].Begin? && w[k] == End(w[0].ctx) && Balanced(w[1..k]) && Balanced(w[k + 1..])
  }

  /** Balanced but for the begins of ctx, in this order, which have no end. */
  ghost predicate Leaves(w: seq<Event>, ctx: Context)
    decreases |ctx|, 1
  {
    if ctx == [] then Balanced(w) else exists k :: OpenedAt(w, ctx, k)
  }

  /** The event at k is the last begin without an end. */
  ghost predicate OpenedAt(w: seq<Event>, ctx: Context, k: int)
    decreases |ctx|, 0
  {
    ctx != [] && 0 <= k < |w| && w[k] == Begin(ctx[|ctx| - 1]) && Leaves(w[..k], ctx[..|ctx| - 1]) && Balanced(w[k + 1..])
  }

  /** The event at k ends what nobody began. */
  ghost predicate StrayEnd(w: seq<Event>, k: int)
  {
    0 <= k < |w| && w[k].End? && Balanced(w[..k])
  }

  /** The event at k ends something other than what was begun last. */
  ghost predicate WrongEnd(w: seq<Event>, k: int, ctx: Context)
  {
    0 <= k < |w| && w[k].End? && ctx != [] && Leaves(w[..k], ctx) && ctx[|ctx| - 1] != w[k].ctx
  }

  // ----- what a run makes of a word -----

  lemma {:induction false} RunSplit(ctx: Context, u: seq<Event>, v: seq<Event>)
    ensures Run(ctx, u + v) == if Run(ctx, u).Nested? then Run(Run(ctx, u).ctx, v) else Run(ctx, u)
    decreases |u|
  {
    if u == [] {
      assert u + v == v;
    } else {
      assert (u + v)[0] == u[0] && (u + v)[1..] == u[1..] + v;
      match u[0]
      case Begin(c) => RunSplit(ctx + [c], u[1..], v);
      case End(c) =>
        if ctx != [] && ctx[|ctx| - 1] == c {
          RunSplit(ctx[..|ctx| - 1], u[1..], v);
        }
    }
  }

  lemma RunBegin(ctx: Context, c: int)
    ensures Run(ctx, [Begin(c)]) == Nested(ctx + [c])
  {
    assert [Begin(c)][1..] == [];
  }

  lemma RunEnd(ctx: Context, c: int)
    ensures Run(ctx, [End(c)]) == if ctx == [] then Underflow else if ctx[|ctx| - 1] == c then Nested(ctx[..|ctx| - 1]) else Mismatch
  {
    assert [End(c)][1..] == [];
  }

  lemma {:induction false} BalancedRuns(ctx: Context, w: seq<Event>)
    requires Balanced(w)
    ensures Run(ctx, w) == Nested(ctx)
    decreases |w|
  {
    if w != [] {
      var c := w[0].ctx;
      var k :| ClosedAt(w, k);
      assert w == [Begin(c)] + (w[1..k] + ([End(c)] + w[k + 1..]));
      RunSplit(ctx, [Begin(c)], w[1..k] + ([End(c)] + w[k + 1..]));
      RunBegin(ctx, c);
      BalancedRuns(ctx + [c], w[1..k]);
      RunSplit(ctx + [c], w[1..k], [End(c)] + w[k + 1..]);
      RunEnd(ctx + [c], c);
      RunSplit(ctx + [c], [End(c)], w[k + 1..]);
      BalancedRuns(ctx, w[k + 1..]);
    }
  }

  lemma {:induction false} LeavesRuns(w: seq<Event>, ctx: Context)
    requires Leaves(w, ctx)
    ensures Run([], w) == Nested(ctx)
    decreases |ctx|
  {
    if ctx == [] {
      BalancedRuns([], w);
    } else {
      var rest, c := ctx[..|ctx| - 1], ctx[|ctx| - 1];
      var k :| OpenedAt(w, ctx, k);
      assert w == w[..k] + ([Begin(c)] + w[k + 1..]);
      LeavesRuns(w[..k], rest);
      RunSplit([], w[..k], [Begin(c)] + w[k + 1..]);
      RunBegin(rest, c);
      RunSplit(rest, [Begin(c)], w[k + 1..]);
      BalancedRuns(ctx, w[k + 1..]);
      assert rest + [c] == ctx;
    }
  }

  lemma {:induction false} BalancedJoin(a: seq<Event>, b: seq<Event>)
    requires Balanced(a) && Balanced(b)
    ensures Balanced(a + b)
    decreases |a|
  {
    if a == [] {
      assert a + b == b;
    } else {
      var k :| ClosedAt(a, k);
      BalancedJoin(a[k + 1..], b);
      var w := a + b;
      assert w[k] == a[k] && w[1..k] == a[1..k] && w[k + 1..] == a[k + 1..] + b;
      assert ClosedAt(w, k);
    }
  }

  lemma BalancedPair(c: int, w: seq<Event>)
    requires Balanced(w)
    ensures Balanced([Begin(c)] + w + [End(c)])
  {
    var x := [Begin(c)] + w + [End(c)];
    var k := |w| + 1;
    assert x[k] == End(c) && x[1..k] == w && x[k + 1..] == [];
    assert ClosedAt(x, k);
  }

  lemma LeavesJoin(w: seq<Event>, ctx: Context, b: seq<Event>)
    requires Leaves(w, ctx) && Balanced(b)
    ensures Leaves(w + b, ctx)
  {
    if ctx == [] {
      BalancedJoin(w, b);
    } else {
      var rest, c := ctx[..|ctx| - 1], ctx[|ctx| - 1];
      var k :| OpenedAt(w, ctx, k);
      BalancedJoin(w[k + 1..], b);
      var x := w + b;
      assert x[k] == w[k] && x[..k] == w[..k] && x[k + 1..] == w[k + 1..] + b;
      assert OpenedAt(x, ctx, k);
    }
  }

  lemma LeavesBegin(w: seq<Event>, ctx: Context, c: int)
    requires Leaves(w, ctx)
    ensures Leaves(w + [Begin(c)], ctx + [c])
  {
    var x, more := w + [Begin(c)], ctx + [c];
    assert x[|w|] == Begin(more[|more| - 1]) && x[..|w|] == w && x[|w| + 1..] == [] && more[..|more| - 1] == ctx;
    assert OpenedAt(x, more, |w|);
  }

  lemma LeavesEnd(w: seq<Event>, ctx: Context)
    requires ctx != [] && Leaves(w, ctx)
    ensures Leaves(w + [End(ctx[|ctx| - 1])], ctx[..|ctx| - 1])
  {
    var rest, c := ctx[..|ctx| - 1], ctx[|ctx| - 1];
    var k :| OpenedAt(w, ctx, k);
    BalancedPair(c, w[k + 1..]);
    LeavesJoin(w[..k], rest, [Begin(c)] + w[k + 1..] + [End(c)]);
    assert w + [End(c)] == w[..k] + ([Begin(c)] + w[k + 1..] + [End(c)]);
  }

  /** A run ends as the word says: with the unended begins, at a wrong end, or at a stray one. */
  lemma {:induction false} RunTells(w: seq<Event>)
    ensures match Run([], w)
            case Nested(ctx) => Leaves(w, ctx)
            case Mismatch => exists k, ctx :: WrongEnd(w, k, ctx)
            case Underflow => exists k :: StrayEnd(w, k)
    decreases |w|
  {
    if w != [] {
      var u, e := w[..|w| - 1], w[|w| - 1];
      assert w == u + [e];
      RunTells(u);
      RunSplit([], u, [e]);
      match Run([], u)
      case Nested(ctx) =>
        if e.Begin? {
          RunBegin(ctx, e.ctx);
          LeavesBegin(u, ctx, e.ctx);
        } else {
          RunEnd(ctx, e.ctx);
          LastEnd(w, ctx);
        }
      case Mismatch =>
        var k, ctx :| WrongEnd(u, k, ctx);
        assert w[..k] == u[..k];
        assert WrongEnd(w, k, ctx);
      case Underflow =>
        var k :| StrayEnd(u, k);
        assert w[..k] == u[..k];
        assert StrayEnd(w, k);
    }
  }

  lemma LastEnd(w: seq<Event>, ctx: Context)
    requires w != [] && w[|w| - 1].End? && Leaves(w[..|w| - 1], ctx)
    ensures ctx == [] ==> StrayEnd(w, |w| - 1)
    ensures ctx != [] && ctx[|ctx| - 1] != w[|w| - 1].ctx ==> WrongEnd(w, |w| - 1, ctx)
    ensures ctx != [] && ctx[|ctx| - 1] == w[|w| - 1].ctx ==> Leaves(w, ctx[..|ctx| - 1])
  {
    if ctx != [] && ctx[|ctx| - 1] == w[|w| - 1].ctx {
      LeavesEnd(w[..|w| - 1], ctx);
      assert w == w[..|w| - 1] + [End(ctx[|ctx| - 1])];
    }
  }

  lemma StrayEndStops(w: seq<Event>, k: int)
    requires StrayEnd(w, k)
    ensures Run([], w) == Underflow
  {
    BalancedRuns([], w[..k]);
    assert w == w[..k] + ([w[k]] + w[k + 1..]);
    RunSplit([], w[..k], [w[k]] + w[k + 1..]);
    RunEnd([], w[k].ctx);
    RunSplit([], [w[k]], w[k + 1..]);
  }

  lemma WrongEndStops(w: seq<Event>, k: int, ctx: Context)
    requires WrongEnd(w, k, ctx)
    ensures Run([], w) == Mismatch
  {
    LeavesRuns(w[..k], ctx);
    assert w == w[..k] + ([w[k]] + w[k + 1..]);
    RunSplit([], w[..k], [w[k]] + w[k + 1..]);
    RunEnd(ctx, w[k].ctx);
    RunSplit(ctx, [w[k]], w[k + 1..]);
  }

  /** A run ends with a stack exactly when the word leaves these begins open, with a mismatch exactly when the word has
      a wrong end, and with a look at an empty stack exactly when it has a stray one. */
  lemma RunIff(w: seq<Event>)
    ensures forall ctx :: Run([], w) == Nested(ctx) <==> Leaves(w, ctx)
    ensures Run([], w) == Mismatch <==> exists k, ctx :: WrongEnd(w, k, ctx)
    ensures Run([], w) == Underflow <==> exists k :: StrayEnd(w, k)
  {
    RunTells(w);
    forall ctx | Leaves(w, ctx) ensures Run([], w) == Nested(ctx) {
      LeavesRuns(w, ctx);
    }
    if k, ctx :| WrongEnd(w, k, ctx) {
      WrongEndStops(w, k, ctx);
    }
    if k :| StrayEnd(w, k) {
      StrayEndStops(w, k);
    }
  }

  /** A word runs from an empty stack to an empty stack exactly when it is balanced. */
  lemma BalancedIff(w: seq<Event>)
    ensures Run([], w) == Nested([]) <==> Balanced(w)
  {
    RunIff(w);
    assert Leaves(w, []) <==> Balanced(w);
  }

  /** Runs the events of a block on a copy of the stack. */
  method RunBlock(ctx0: Context, events: seq<Event>) returns (r: Outcome)
    ensures r == Run(ctx0, events)
  {
    var ctx := ctx0;
    for i := 0 to |events|
      invariant Run(ctx0, events) == Run(ctx, events[i..])
    {
      assert events[i..][0] == events[i] && events[i..][1..] == events[i + 1..];
      match events[i]
      case Begin(c) =>
        ctx := ctx + [c];
      case End(c) =>
        if ctx == [] {
          return Underflow;
        }
        if ctx[|ctx| - 1] == c {
          ctx := ctx[..|ctx| - 1];
        } else {
          return Mismatch;
        }
    }
    r := Nested(ctx);
  }
}
