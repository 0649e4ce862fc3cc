/**
 * How long a tick can last, and what that means for the lease: a condition on the settings
 * alone under which no tick outlives the lease it was granted at its start.
 */
module TickBudget {
  import opened Common
  import Checker
  import Probe
  import Pool
  import opened PoolBudget
  import Scheduler
  import L = Lease
  import W = WorkExclusivity

  const NS_PER_MS := Probe.NS_PER_MS

  /** One task of a tick: what its check meets, and the time its database writes take. */
  datatype CheckRun = CheckRun(o: Probe.Options, traces: seq<seq<Probe.Timed>>, random: seq<real>, writesNs: nat)

  predicate IsDrawn(r: CheckRun) {
    |r.traces| > 0 && Checker.Draws(r.random, |r.traces| - 1)
  }

  function DurationNs(b: Checker.Backoff, r: CheckRun): nat
    requires IsDrawn(r)
  {
    Checker.CheckTime(r.o, b, r.traces, r.random) + r.writesNs
  }

  /**
   * Upper bounds: the largest timeout of any monitor, the retries, the writes of one check, and
   * what a tick spends outside its pool, on acquiring and on the due query.
   */
  datatype Limits = Limits(timeoutMs: nat, maxRetries: nat, writesNs: nat, overheadNs: nat)

  predicate IsWithin(l: Limits, r: CheckRun) {
    IsDrawn(r) && r.o.timeoutMs <= l.timeoutMs && |r.traces| - 1 <= l.maxRetries && r.writesNs <= l.writesNs
  }

  /** The worst case of any check within these limits. */
  function WorstMs(b: Checker.Backoff, l: Limits): nat {
    (l.maxRetries + 1) * l.timeoutMs + Checker.LongestDelays(b, l.maxRetries)
  }

  function LongestTaskNs(b: Checker.Backoff, l: Limits): nat {
    WorstMs(b, l) * NS_PER_MS + l.writesNs
  }

  lemma TaskWithin(b: Checker.Backoff, l: Limits, r: CheckRun)
    requires IsWithin(l, r)
    ensures DurationNs(b, r) <= LongestTaskNs(b, l)
  {
    Checker.LadderBound(r.o, b, r.traces, r.random);
    WorstWithin(b, l, r.o, |r.traces| - 1);
    ProductMono(Checker.WorstCaseMs(r.o, b, |r.traces| - 1), WorstMs(b, l), NS_PER_MS, NS_PER_MS);
  }

  lemma WorstWithin(b: Checker.Backoff, l: Limits, o: Probe.Options, retries: nat)
    requires o.timeoutMs <= l.timeoutMs && retries <= l.maxRetries
    ensures Checker.WorstCaseMs(o, b, retries) <= WorstMs(b, l)
  {
    Checker.LongestDelaysMono(b, retries, l.maxRetries);
    ProductMono(retries + 1, l.maxRetries + 1, o.timeoutMs, l.timeoutMs);
  }

  // ---------------------------------------------------------------- the condition

  /** A condition on the settings alone: the overhead and the worst batch fit into one TTL. */
  predicate TtlCovers(b: Checker.Backoff, l: Limits, limit: int, ttlMs: nat) {
    Fits(Scheduler.MAX_BATCH, limit, LongestTaskNs(b, l), l.overheadNs, ttlMs * NS_PER_MS)
  }

  /** The pool of a tick ran these checks. */
  ghost predicate Runs(b: Checker.Backoff, l: Limits, checks: seq<CheckRun>, p: PoolRun) {
    && |p.tasks| == |checks| <= Scheduler.MAX_BATCH
    && (forall i :: 0 <= i < |checks| ==> IsWithin(l, checks[i]) && p.tasks[i].duration == DurationNs(b, checks[i]))
    && Pool.Reachable(p.tasks, p.limit, p.order, p.end, true) && HasDrained(p.end)
  }

  /**
   * Under that condition every tick ends before its lease does: whatever its targets do, the
   * jitter draws and the pool's order is, overhead and pool together stay below the TTL.
   */
  lemma TickEndsInTime(b: Checker.Backoff, l: Limits, checks: seq<CheckRun>, p: PoolRun, w: nat, ttlMs: nat)
    requires Runs(b, l, checks, p) && w < |p.end.workers| && TtlCovers(b, l, p.limit, ttlMs)
    ensures l.overheadNs + Finish(p, w) < ttlMs * NS_PER_MS
  {
    RunIsBounded(b, l, checks, p);
    EndsInTime(p, Scheduler.MAX_BATCH, LongestTaskNs(b, l), l.overheadNs, ttlMs * NS_PER_MS, w);
  }

  lemma RunIsBounded(b: Checker.Backoff, l: Limits, checks: seq<CheckRun>, p: PoolRun)
    requires Runs(b, l, checks, p)
    ensures IsPoolRun(p, Scheduler.MAX_BATCH, LongestTaskNs(b, l))
  {
    forall i | 0 <= i < |p.tasks| ensures p.tasks[i].duration <= LongestTaskNs(b, l) {
      TaskWithin(b, l, checks[i]);
    }
  }

  // ---------------------------------------------------------------- the settings as shipped

  const DEFAULT_BACKOFF := Checker.Backoff(250, 4000)
  const DEFAULT_RETRIES := 2
  const DEFAULT_TIMEOUT_MS := 10_000
  const DEFAULT_CONCURRENCY := 10
  const DEFAULT_TTL_MS := 30_000

  /** A silent target takes all of its timeouts, whatever the jitter draws. */
  lemma SilentTargetTakes(o: Probe.Options, b: Checker.Backoff, traces: seq<seq<Probe.Timed>>, random: seq<real>)
    requires Checker.IsRequestable(o.url) && |traces| > 0 && forall k :: 0 <= k < |traces| ==> traces[k] == []
    requires Checker.Draws(random, |traces| - 1)
    ensures |traces| * o.timeoutMs * NS_PER_MS <= Checker.CheckTime(o, b, traces, random)
  {
    Checker.SilentTarget(o, traces);
    Checker.LadderBound(o, b, traces, random);
    Checker.DeadlinesClosedForm(o, 0, |traces|);
  }

  /**
   * The defaults do not satisfy the condition, not even for a batch of one: a single silent
   * target keeps its tick running for at least the whole default lease.
   */
  lemma DefaultLeaseIsOutlasted(o: Probe.Options, traces: seq<seq<Probe.Timed>>, random: seq<real>, l: Limits)
    requires Checker.IsRequestable(o.url) && o.timeoutMs == DEFAULT_TIMEOUT_MS
    requires |traces| == DEFAULT_RETRIES + 1 && forall k :: 0 <= k < |traces| ==> traces[k] == []
    requires Checker.Draws(random, DEFAULT_RETRIES)
    ensures DEFAULT_TTL_MS * NS_PER_MS <= Checker.CheckTime(o, DEFAULT_BACKOFF, traces, random)
    ensures l.timeoutMs == DEFAULT_TIMEOUT_MS && l.maxRetries == DEFAULT_RETRIES ==>
              !TtlCovers(DEFAULT_BACKOFF, l, DEFAULT_CONCURRENCY, DEFAULT_TTL_MS)
  {
    SilentTargetTakes(o, DEFAULT_BACKOFF, traces, random);
  }

  // ---------------------------------------------------------------- exclusivity from the settings

  /** The time since the clock reading on which the tick's lease was granted. */
  function TickAge(c: W.Cluster, id: L.Instance): int
    requires id in c.lease.peers
  {
    c.lease.clock - (c.lease.peers[id].leaseUntil - c.lease.peers[id].ttl)
  }

  /** The tick has lasted no longer than its overhead and one of its pool's workers. */
  ghost predicate Lasts(c: W.Cluster, id: L.Instance, b: Checker.Backoff, l: Limits, p: PoolRun) {
    && id in c.lease.peers && (exists checks :: Runs(b, l, checks, p))
    && exists w: nat :: w < |p.end.workers| && TickAge(c, id) * NS_PER_MS <= l.overheadNs + Finish(p, w)
  }

  lemma FittingTickIsAlive(c: W.Cluster, id: L.Instance, b: Checker.Backoff, l: Limits, p: PoolRun)
    requires Lasts(c, id, b, l, p) && TtlCovers(b, l, p.limit, c.lease.peers[id].ttl)
    ensures !W.OutlivedLease(c, id)
  {
    var w: nat :| w < |p.end.workers| && TickAge(c, id) * NS_PER_MS <= l.overheadNs + Finish(p, w);
    var checks :| Runs(b, l, checks, p);
    TickEndsInTime(b, l, checks, p, w, c.lease.peers[id].ttl);
  }

  /**
   * Work exclusivity from the settings: if the TTL covers the overhead and the worst batch,
   * then in every disciplined run two instances never have checks in flight at the same time,
   * unless a shutdown has released one of them in the middle of its tick.
   */
  lemma FittingTicksExclude(steps: seq<W.Step>, a: L.Instance, b: L.Instance, backoff: Checker.Backoff, l: Limits,
                            p: PoolRun, q: PoolRun)
    requires W.DisciplinedRun(W.Genesis, steps) && a != b
    requires var c := W.Run(W.Genesis, steps);
             && c.IsChecking(a) && c.IsChecking(b)
             && Lasts(c, a, backoff, l, p) && TtlCovers(backoff, l, p.limit, c.lease.peers[a].ttl)
             && Lasts(c, b, backoff, l, q) && TtlCovers(backoff, l, q.limit, c.lease.peers[b].ttl)
    ensures var c := W.Run(W.Genesis, steps); c.TickOf(a).released || c.TickOf(b).released
  {
    var c := W.Run(W.Genesis, steps);
    FittingTickIsAlive(c, a, backoff, l, p);
    FittingTickIsAlive(c, b, backoff, l, q);
    W.WorkExclusive(steps, a, b);
  }
}
