/**
 * How long a bounded batch can keep the pool busy, and when that leaves a deadline unmet.
 */
module PoolBudget {
  import opened Common
  import Pool

  ghost predicate HasDrained(s: Pool.State) {
    forall v :: 0 <= v < |s.workers| ==> s.workers[v].Exited?
  }

  lemma {:induction false} WorkAtMost(tasks: seq<Pool.Task>, k: nat, longest: nat)
    requires k <= |tasks| && forall i :: 0 <= i < |tasks| ==> tasks[i].duration <= longest
    ensures Pool.TotalWork(tasks, k) <= k * longest && Pool.Longest(tasks, k) <= longest
  {
    if 0 < k {
      WorkAtMost(tasks, k - 1, longest);
      assert k * longest == (k - 1) * longest + longest;
    }
  }

  /** The makespan of a pool whose tasks are all bounded. */
  lemma PoolWithin(tasks: seq<Pool.Task>, limit: int, order: seq<nat>, s: Pool.State, w: nat, longest: nat)
    requires Pool.Reachable(tasks, limit, order, s, true) && HasDrained(s) && w < |s.workers|
    requires forall i :: 0 <= i < |tasks| ==> tasks[i].duration <= longest
    ensures w < |s.freeAt|
    ensures Pool.Width(|tasks|, limit) * s.freeAt[w] <= (|tasks| + Pool.Width(|tasks|, limit) - 1) * longest
  {
    var n, width := |tasks|, Pool.Width(|tasks|, limit);
    Pool.Makespan(tasks, limit, order, s, w);
    WorkAtMost(tasks, n, longest);
    ScaledMakespan(width, s.freeAt[w], n, Pool.TotalWork(tasks, n), Pool.Longest(tasks, n), longest);
  }

  lemma ScaledMakespan(width: nat, finish: nat, n: nat, total: nat, most: nat, longest: nat)
    requires 1 <= width && width * finish <= total + (width - 1) * most && total <= n * longest && most <= longest
    ensures width * finish <= (n + width - 1) * longest
  {
    ProductMono(width - 1, width - 1, most, longest);
    assert (n + width - 1) * longest == n * longest + (width - 1) * longest;
  }

  /** A smaller batch never takes longer per worker than the largest one. */
  lemma LargestBatchIsWorst(m: nat, n: nat, limit: int)
    requires m <= n
    ensures (m + Pool.Width(m, limit) - 1) * Pool.Width(n, limit)
            <= (n + Pool.Width(n, limit) - 1) * Pool.Width(m, limit)
  {
    var w, largest := Pool.Width(m, limit), Pool.Width(n, limit);
    if w == largest {
      ProductMono(m + w - 1, n + w - 1, w, w);
    } else {
      assert w == Max(1, m) && largest <= n;
      if 0 < m {
        ProductMono(m - 1, m - 1, largest, n);
        assert (m - 1) * n == m * n - n;
        assert (2 * m - 1) * largest == m * largest + (m - 1) * largest;
        assert (n + largest - 1) * m == m * n + m * largest - m;
      }
    }
  }

  /** Overhead and the worst batch of this size, on so many workers, fit into the time given. */
  predicate Fits(batch: nat, limit: int, longest: nat, overhead: nat, given: nat) {
    var width := Pool.Width(batch, limit);
    width * overhead + (batch + width - 1) * longest < width * given
  }

  /** What a batch's pool ran, and how it drained. */
  datatype PoolRun = PoolRun(tasks: seq<Pool.Task>, limit: int, order: seq<nat>, end: Pool.State)

  ghost predicate IsPoolRun(p: PoolRun, batch: nat, longest: nat) {
    && |p.tasks| <= batch && (forall i :: 0 <= i < |p.tasks| ==> p.tasks[i].duration <= longest)
    && Pool.Reachable(p.tasks, p.limit, p.order, p.end, true) && HasDrained(p.end)
  }

  /** When a worker of the pool is done. */
  function Finish(p: PoolRun, w: nat): nat {
    if w < |p.end.freeAt| then p.end.freeAt[w] else 0
  }

  /**
   * If the largest batch of longest tasks fits, every batch does, whatever its size, the
   * durations and the order in which its tasks settle.
   */
  lemma EndsInTime(p: PoolRun, batch: nat, longest: nat, overhead: nat, given: nat, w: nat)
    requires IsPoolRun(p, batch, longest) && w < |p.end.workers| && Fits(batch, p.limit, longest, overhead, given)
    ensures w < |p.end.freeAt| && overhead + Finish(p, w) < given
  {
    PoolWithin(p.tasks, p.limit, p.order, p.end, w, longest);
    SmallerBatchFits(|p.tasks|, batch, p.limit, Finish(p, w), longest, overhead, given);
  }

  lemma SmallerBatchFits(m: nat, batch: nat, limit: int, finish: nat, longest: nat, overhead: nat, given: nat)
    requires Fits(batch, limit, longest, overhead, given) && m <= batch
    requires Pool.Width(m, limit) * finish <= (m + Pool.Width(m, limit) - 1) * longest
    ensures overhead + finish < given
  {
    var width, largest := Pool.Width(m, limit), Pool.Width(batch, limit);
    LargestBatchIsWorst(m, batch, limit);
    FinishBelow(width, largest, finish, m + width - 1, batch + largest - 1, longest, overhead, given);
  }

  lemma ProductMono(a: nat, b: nat, c: nat, d: nat)
    requires a <= b && c <= d
    ensures a * c <= b * d
  {
    assert a * c <= b * c <= b * d;
  }

  /** finish <= (rounds / width) * longest, and rounds / width is at most the largest such quotient. */
  lemma FinishBelow(width: nat, largest: nat, finish: nat, rounds: nat, mostRounds: nat, longest: nat, overhead: nat,
                    ttl: nat)
    requires 1 <= width && 1 <= largest
    requires width * finish <= rounds * longest && rounds * largest <= mostRounds * width
    requires largest * overhead + mostRounds * longest < largest * ttl
    ensures overhead + finish < ttl
  {
    Regroup(width, largest, finish, rounds, mostRounds, longest);
    StrictProduct(width, largest * overhead + mostRounds * longest, largest * ttl);
    assert width * (largest * overhead + mostRounds * longest)
           == width * largest * overhead + width * mostRounds * longest;
    assert width * (largest * ttl) == width * largest * ttl;
    assert width * largest * (overhead + finish) == width * largest * overhead + width * largest * finish;
    Cancel(width * largest, overhead + finish, ttl);
  }

  lemma StrictProduct(k: nat, x: nat, y: nat)
    requires 1 <= k && x < y
    ensures k * x < k * y
  {
  }

  lemma Cancel(k: nat, x: nat, y: nat)
    requires k * x < k * y
    ensures x < y
  {
  }

  lemma Regroup(width: nat, largest: nat, finish: nat, rounds: nat, mostRounds: nat, longest: nat)
    requires width * finish <= rounds * longest && rounds * largest <= mostRounds * width
    ensures width * largest * finish <= width * mostRounds * longest
  {
    ProductMono(largest, largest, width * finish, rounds * longest);
    ProductMono(rounds * largest, mostRounds * width, longest, longest);
    assert largest * (width * finish) == width * largest * finish;
    assert largest * (rounds * longest) == rounds * largest * longest;
    assert mostRounds * width * longest == width * mostRounds * longest;
  }
}
