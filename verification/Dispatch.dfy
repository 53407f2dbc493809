/** Handing worker threads to pipeline stages, and iterations to the replicas of a stage. */
module Dispatch {
  import opened MachineInts
  import opened StageKinds

  ghost function CountOf(kinds: seq<StageKind>, k: StageKind): nat
  {
    if kinds == [] then 0
    else CountOf(kinds[..|kinds| - 1], k) + if kinds[|kinds| - 1] == k then 1 else 0
  }

  ghost function Total(counts: seq<int>): int
  {
    if counts == [] then 0 else Total(counts[..|counts| - 1]) + counts[|counts| - 1]
  }

  lemma {:induction false} CountsAddUp(kinds: seq<StageKind>)
    ensures CountOf(kinds, Sequential) + CountOf(kinds, Parallel) == |kinds|
  {
    if kinds != [] {
      CountsAddUp(kinds[..|kinds| - 1]);
    }
  }

  /** Threads left for the parallel stages: the sum with the 32-bit word of -numSequential. */
  function ParallelThreads(numThreads: int, numSequential: int): int
  {
    (numThreads + (UNSIGNED - numSequential)) % UNSIGNED
  }

  function RoundDown(numThreads: int, numSequential: int, numStages: int): int
    requires numSequential < numStages
  {
    ParallelThreads(numThreads, numSequential) / (numStages - numSequential)
  }

  /** The first parallel stage takes the whole remainder. */
  function RoundUp(numThreads: int, numSequential: int, numStages: int): int
    requires numSequential < numStages
  {
    RoundDown(numThreads, numSequential, numStages) + ParallelThreads(numThreads, numSequential) % (numStages - numSequential)
  }

  /** Whether stage i is the first parallel one. */
  ghost predicate FirstParallel(kinds: seq<StageKind>, i: nat)
    requires i < |kinds|
  {
    kinds[i] == Parallel && CountOf(kinds[..i], Parallel) == 0
  }

  ghost function ThreadsOf(kinds: seq<StageKind>, up: int, down: int, i: nat): int
    requires i < |kinds|
  {
    if kinds[i] == Sequential then 1 else if FirstParallel(kinds, i) then up else down
  }

  /** The first parallel stage gets the remainder of `avail` on top of the even share that all of them get. */
  ghost predicate SharedOut(kinds: seq<StageKind>, avail: int, counts: seq<int>)
    requires CountOf(kinds, Parallel) >= 1 && |counts| == |kinds|
  {
    var p := CountOf(kinds, Parallel);
    forall i | 0 <= i < |kinds| && kinds[i] == Parallel :: counts[i] == avail / p + if FirstParallel(kinds, i) then avail % p else 0
  }

  method NumSequential(kinds: seq<StageKind>) returns (n: int)
    ensures n == CountOf(kinds, Sequential)
  {
    n := 0;
    for i := 0 to |kinds|
      invariant n == CountOf(kinds[..i], Sequential)
    {
      assert kinds[..i + 1][..i] == kinds[..i];
      if kinds[i] == Sequential {
        n := n + 1;
      }
    }
    assert kinds[..|kinds|] == kinds;
  }

  /** The number of threads of each stage. */
  method StageThreads(kinds: seq<StageKind>, numThreads: int) returns (counts: seq<int>)
    requires 0 <= numThreads < UNSIGNED && |kinds| < UNSIGNED
    requires CountOf(kinds, Parallel) >= 1
    ensures |counts| == |kinds|
    ensures forall i | 0 <= i < |kinds| && kinds[i] == Sequential :: counts[i] == 1
    ensures SharedOut(kinds, ParallelThreads(numThreads, CountOf(kinds, Sequential)), counts)
    ensures forall i | 0 <= i < |counts| :: counts[i] >= 0
    ensures Total(counts) == if numThreads >= CountOf(kinds, Sequential) then numThreads else numThreads + UNSIGNED
    ensures Total(counts) == numThreads && (forall i | 0 <= i < |counts| :: counts[i] > 0) <==> numThreads >= |kinds|
  {
    var numSequential := NumSequential(kinds);
    CountsAddUp(kinds);
    var up := RoundUp(numThreads, numSequential, |kinds|);
    var down := RoundDown(numThreads, numSequential, |kinds|);
    counts := [];
    var first := true;
    for i := 0 to |kinds|
      invariant |counts| == i && (first <==> CountOf(kinds[..i], Parallel) == 0)
      invariant forall k | 0 <= k < i :: counts[k] == ThreadsOf(kinds, up, down, k)
    {
      assert kinds[..i + 1][..i] == kinds[..i];
      if kinds[i] == Parallel {
        counts := counts + [if first then up else down];
        first := false;
      } else {
        counts := counts + [1];
      }
    }
    assert kinds[..|kinds|] == kinds;
    ThreadTotal(kinds, up, down, counts);
    SharesAddUp(CountOf(kinds, Parallel), up, down);
    Rounding(numThreads, numSequential, |kinds|);
    FirstParallelExists(kinds);
    if numThreads < |kinds| && numThreads >= numSequential {
      ghost var i: nat :| i < |kinds| && LastParallel(kinds, i);
      assert counts[i] == ThreadsOf(kinds, up, down, i) == 0;
    }
  }

  ghost predicate LastParallel(kinds: seq<StageKind>, i: nat)
    requires i < |kinds|
  {
    kinds[i] == Parallel && (CountOf(kinds, Parallel) >= 2 ==> !FirstParallel(kinds, i))
  }

  lemma FirstParallelExists(kinds: seq<StageKind>)
    requires CountOf(kinds, Parallel) >= 1
    ensures exists i: nat :: i < |kinds| && LastParallel(kinds, i)
  {
    var n := |kinds| - 1;
    if kinds[n] == Parallel {
      assert LastParallel(kinds, n);
    } else {
      FirstParallelExists(kinds[..n]);
      var i: nat :| i < n && LastParallel(kinds[..n], i);
      assert kinds[..n][..i] == kinds[..i];
      assert LastParallel(kinds, i);
    }
  }

  /** The remainder makes the shares of the parallel stages exact. */
  lemma Rounding(numThreads: int, numSequential: int, numStages: int)
    requires 0 <= numSequential < numStages < UNSIGNED && 0 <= numThreads < UNSIGNED
    ensures var p := numStages - numSequential;
            var up, down := RoundUp(numThreads, numSequential, numStages), RoundDown(numThreads, numSequential, numStages);
            && 0 <= down <= up
            && up + (p - 1) * down == (if numThreads >= numSequential then numThreads - numSequential else numThreads - numSequential + UNSIGNED)
            && (numThreads >= numStages ==> down >= 1)
            && (numSequential <= numThreads < numStages ==> down == 0)
  {
    var n := ParallelThreads(numThreads, numSequential);
    var p := numStages - numSequential;
    assert n == if numThreads >= numSequential then numThreads - numSequential else numThreads - numSequential + UNSIGNED;
    assert n == p * (n / p) + n % p;
  }

  /** What p parallel stages get together: the first `up`, the others `down` each. */
  ghost function Shares(p: nat, up: int, down: int): int
  {
    if p == 0 then 0 else if p == 1 then up else Shares(p - 1, up, down) + down
  }

  lemma {:induction false} SharesAddUp(p: nat, up: int, down: int)
    requires p > 0
    ensures Shares(p, up, down) == up + (p - 1) * down
  {
    if p > 1 {
      SharesAddUp(p - 1, up, down);
      assert (p - 1) * down == (p - 2) * down + down;
    }
  }

  lemma {:induction false} ThreadTotal(kinds: seq<StageKind>, up: int, down: int, counts: seq<int>)
    requires |counts| == |kinds| && forall k | 0 <= k < |kinds| :: counts[k] == ThreadsOf(kinds, up, down, k)
    ensures Total(counts) == CountOf(kinds, Sequential) + Shares(CountOf(kinds, Parallel), up, down)
    decreases |kinds|
  {
    if kinds != [] {
      var n := |kinds| - 1;
      forall k | 0 <= k < n ensures counts[..n][k] == ThreadsOf(kinds[..n], up, down, k) {
        assert kinds[..n][..k] == kinds[..k];
      }
      ThreadTotal(kinds[..n], up, down, counts[..n]);
    }
  }

  // ----- the invoke chain -----

  ghost function Offset(counts: seq<int>, i: nat): int
    requires i <= |counts|
  {
    Total(counts[..i])
  }

  lemma OffsetNext(counts: seq<int>, i: nat)
    requires i < |counts|
    ensures Offset(counts, i + 1) == Offset(counts, i) + counts[i]
  {
    assert counts[..i + 1][..i] == counts[..i];
  }

  lemma {:induction false} OffsetMonotone(counts: seq<int>, i: nat, j: nat)
    requires i <= j <= |counts| && NonNegative(counts)
    ensures Offset(counts, i) <= Offset(counts, j)
    decreases j
  {
    if i < j {
      OffsetMonotone(counts, i, j - 1);
      OffsetNext(counts, j - 1);
    }
  }

  ghost predicate NonNegative(counts: seq<int>)
  {
    forall k | 0 <= k < |counts| :: counts[k] >= 0
  }

  /** Worker `wid` runs as replica `replica` of stage `stage`. */
  ghost predicate Runs(counts: seq<int>, wid: int, stage: nat, replica: int)
  {
    stage < |counts| && 0 <= replica < counts[stage] && wid == Offset(counts, stage) + replica
  }

  /** The chain of comparisons a worker runs through, in 32-bit arithmetic: the first stage whose end lies beyond its
      id, the last stage without a comparison. The replica id counts from the start of the stage. Stages without
      threads are passed over, and workers beyond the last thread end up in the last stage. */
  method Invoke(counts: seq<int>, wid: int) returns (stage: nat, replica: int)
    requires counts != [] && NonNegative(counts) && 0 <= wid < UNSIGNED
    ensures stage < |counts|
    ensures wid < Total(counts) < UNSIGNED ==> Runs(counts, wid, stage, replica)
    ensures Total(counts) <= wid ==> stage == |counts| - 1 && replica == wid - Offset(counts, stage)
  {
    assert counts[..|counts|] == counts;
    var begin := 0;
    stage := 0;
    while stage < |counts| - 1
      invariant stage < |counts| && 0 <= begin < UNSIGNED
      invariant Total(counts) < UNSIGNED ==> begin == Offset(counts, stage) <= wid
    {
      OffsetNext(counts, stage);
      OffsetMonotone(counts, stage + 1, |counts|);
      var end := (begin + counts[stage]) % UNSIGNED;
      if wid < end {
        break;
      }
      begin := end;
      stage := stage + 1;
    }
    OffsetNext(counts, stage);
    OffsetMonotone(counts, stage + 1, |counts|);
    replica := (wid - begin) % UNSIGNED;
  }

  /** No worker serves two stage replicas, and no replica has two workers. */
  lemma OneJobPerWorker(counts: seq<int>, wid: int, s: nat, r: int, s': nat, r': int)
    requires NonNegative(counts)
    requires Runs(counts, wid, s, r) && Runs(counts, wid, s', r')
    ensures s == s' && r == r'
  {
    OffsetNext(counts, s);
    OffsetNext(counts, s');
    if s < s' {
      OffsetMonotone(counts, s + 1, s');
    } else if s' < s {
      OffsetMonotone(counts, s' + 1, s);
    }
  }

  /** Every replica of every stage has a worker. */
  lemma EveryReplicaRuns(counts: seq<int>, s: nat, r: int)
    requires NonNegative(counts)
    requires s < |counts| && 0 <= r < counts[s]
    ensures 0 <= Offset(counts, s) + r < Total(counts) && Runs(counts, Offset(counts, s) + r, s, r)
  {
    OffsetNext(counts, s);
    OffsetMonotone(counts, 0, s);
    OffsetMonotone(counts, s + 1, |counts|);
    assert counts[..|counts|] == counts;
  }

  /** A replica executes an iteration ON when the iteration number falls to it; a sequential stage has one replica. */
  predicate On(iteration: nat, replica: int, factor: int)
    requires factor > 0
  {
    iteration % factor == replica
  }

  /** Any `factor` consecutive iterations give every replica exactly one to execute, and the first ones go to the
      replicas in order. */
  lemma ReplicasTakeTurns(start: nat, factor: int, r: int)
    requires factor > 0 && 0 <= r < factor
    ensures On(r, r, factor)
    ensures exists i :: start <= i < start + factor && On(i, r, factor)
    ensures forall i, j | start <= i < start + factor && start <= j < start + factor && On(i, r, factor) && On(j, r, factor) :: i == j
  {
    Turn(r, factor, r, 0);
    var i := NextTurn(start, factor, r);
    forall i: nat, j: nat | start <= i < start + factor && start <= j < start + factor && On(i, r, factor) && On(j, r, factor) ensures i == j {
      OneTurn(start, factor, r, i, j);
    }
  }

  lemma OneTurn(start: nat, factor: int, r: int, i: nat, j: nat)
    requires factor > 0 && start <= i < start + factor && start <= j < start + factor && On(i, r, factor) && On(j, r, factor)
    ensures i == j
  {
    if i <= j {
      CloseRemainders(i, j, factor);
    } else {
      CloseRemainders(j, i, factor);
    }
  }

  lemma Turn(i: nat, factor: int, r: int, q: int)
    requires factor > 0 && 0 <= r < factor && i == q * factor + r
    ensures On(i, r, factor)
  {
    assert i == (i / factor) * factor + i % factor;
    Quotient(q, r, i / factor, i % factor, factor);
  }

  lemma NextTurn(start: nat, factor: int, r: int) returns (i: nat)
    requires factor > 0 && 0 <= r < factor
    ensures start <= i < start + factor && On(i, r, factor)
  {
    var q, d := start / factor, start % factor;
    assert start == q * factor + d;
    if r >= d {
      i := start + (r - d);
      Turn(i, factor, r, q);
    } else {
      i := start + (r - d) + factor;
      assert (q + 1) * factor == q * factor + factor;
      Turn(i, factor, r, q + 1);
    }
  }

  lemma {:induction false} MultiplesGrow(a: int, b: int, f: int)
    requires a <= b && f >= 0
    ensures a * f <= b * f
    decreases b - a
  {
    if a < b {
      MultiplesGrow(a, b - 1, f);
      assert b * f == (b - 1) * f + f;
    }
  }

  /** Quotient and remainder are unique. */
  lemma Quotient(q: int, r: int, q': int, r': int, f: int)
    requires 0 <= r < f && 0 <= r' < f && q * f + r == q' * f + r'
    ensures q == q'
  {
    if q < q' {
      MultiplesGrow(q + 1, q', f);
    } else if q' < q {
      MultiplesGrow(q' + 1, q, f);
    }
  }

  lemma CloseRemainders(i: nat, j: nat, f: int)
    requires f > 0 && i % f == j % f && i <= j < i + f
    ensures i == j
  {
    var a, b := i / f, j / f;
    assert i == a * f + i % f && j == b * f + j % f;
    if a < b {
      MultiplesGrow(a + 1, b, f);
    } else if b < a {
      MultiplesGrow(b + 1, a, f);
    }
  }

  ghost predicate Executes(counts: seq<int>, wid: int, stage: nat, iteration: nat)
  {
    exists r :: Runs(counts, wid, stage, r) && counts[stage] > 0 && On(iteration, r, counts[stage])
  }

  /** Every iteration of a stage runs ON in exactly one of the workers, if the stage has any. */
  lemma EachIterationRunsOnce(counts: seq<int>, stage: nat, iteration: nat)
    requires stage < |counts| && NonNegative(counts)
    ensures counts[stage] > 0 <==> exists wid :: 0 <= wid < Total(counts) && Executes(counts, wid, stage, iteration)
    ensures forall w, w' | Executes(counts, w, stage, iteration) && Executes(counts, w', stage, iteration) :: w == w'
  {
    if counts[stage] > 0 {
      var r := iteration % counts[stage];
      EveryReplicaRuns(counts, stage, r);
      assert Executes(counts, Offset(counts, stage) + r, stage, iteration);
    }
  }
}
