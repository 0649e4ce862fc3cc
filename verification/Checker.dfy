/**
 * The probe as an object whose handlers update it in place, and the complete check built on
 * it: one probe plus its retry ladder.
 */
module Checker {
  import opened Common
  import opened Probe

  class Attempt {
    const o: Options
    var redirects: nat
    var settled: bool
    var settledAt: nat
    var resolutions: seq<Result>
    var timings: Timings
    var hops: seq<Hop>
    var requests: seq<Request>

    ghost function View(): State
      reads this
    {
      State(redirects, settled, settledAt, resolutions, timings, hops, requests)
    }

    constructor (o: Options)
      ensures this.o == o && View() == Start(o)
    {
      this.o := o;
      redirects, settled, settledAt, resolutions := 0, false, 0, [];
      timings, hops, requests := Timings(None, None, None, None, None), [], [];
      new;
      IssueRequest(0, o.url);
    }

    /** Settles the promise unless it is settled already. */
    method Finish(at: nat, r: Result)
      modifies this`settled, this`settledAt, this`resolutions, this`timings
      ensures View() == Probe.Finish(old(View()), at, r)
    {
      if settled { return; }
      settled := true;
      settledAt := at;
      timings := timings.(total := Some(Ms(at)));
      resolutions := resolutions + [r.(redirects := redirects, responseTime := Ms(at), timings := timings)];
    }

    method IssueRequest(at: nat, target: Url)
      modifies this
      ensures View() == Issue(o, old(View()), at, target)
    {
      if target.Malformed? {
        Finish(at, Down(None, ERR_INVALID_URL, false));
        return;
      }
      var sameOrigin := OriginOf(target) == OriginOf(o.url);
      if target.scheme == OTHER {
        Finish(at, Down(None, ERR_UNSUPPORTED_PROTOCOL, false));
        return;
      }
      hops := hops + [Hop(at, target.scheme == HTTPS, None, None, None, false, None)];
      requests := requests + [Request(target, sameOrigin)];
    }

    method OnResponse(at: nat, h: nat, status: int, location: Option<Url>)
      requires h < |hops|
      modifies this
      ensures View() == Probe.OnResponse(o, old(View()), at, h, status, location)
    {
      timings := timings.(ttfb := Some(Ms(at)));
      hops := hops[h := hops[h].(responded := true)];
      if location.Some? && 300 <= status < 400 && redirects < o.maxRedirects {
        redirects := redirects + 1;
        IssueRequest(at, location.value);
      } else if location.Some? && redirects >= o.maxRedirects {
        Finish(at, Down(Some(status), ERR_TOO_MANY_REDIRECTS, false));
      } else {
        hops := hops[h := hops[h].(awaitingBody := Some(status))];
      }
    }

    /** The socket listeners: hop-local marks, cumulative totals. */
    method OnPhase(at: nat, e: Event)
      requires IsPhase(e)
      requires Delivers(o, View(), at, e)
      modifies this`hops, this`timings
      ensures View() == Handle(o, old(View()), at, e)
    {
      var hop := hops[e.hop];
      var sinceStart := Ms(at - hop.start);
      if e.Lookup? {
        timings := timings.(dns := Some(Value(timings.dns) + sinceStart));
        hops := hops[e.hop := hop.(dns := Some(sinceStart))];
      } else if e.Connect? {
        var tcp := Max(0, sinceStart - Value(hop.dns));
        timings := timings.(tcp := Some(Value(timings.tcp) + tcp));
        hops := hops[e.hop := hop.(tcp := Some(tcp))];
      } else {
        var tls := Max(0, sinceStart - Value(hop.dns) - Value(hop.tcp));
        timings := timings.(tls := Some(Value(timings.tls) + tls));
        hops := hops[e.hop := hop.(tls := Some(tls))];
      }
    }

    /** One turn of the event loop: an overdue deadline first, then the event if it is delivered. */
    method Receive(e: Timed)
      modifies this
      ensures View() == Deliver(o, old(View()), e)
    {
      if o.timeoutMs * NS_PER_MS < e.at {
        Finish(o.timeoutMs * NS_PER_MS, Timeout);
      }
      var now := State(redirects, settled, settledAt, resolutions, timings, hops, requests);
      if !Delivers(o, now, e.at, e.event) { return; }
      match e.event
      case Response(h, status, location) => OnResponse(e.at, h, status, location);
      case BodyDone(h) => Finish(e.at, Graded(hops[h].awaitingBody.value));
      case RequestError(_, code) => Finish(e.at, Down(None, Transport(code), code in RETRYABLE_CODES));
      case Deadline => Finish(e.at, Timeout);
      case _ => OnPhase(e.at, e.event);
    }
  }

  /** What probeOnce resolves with, and when, for a given sequence of events. */
  function Resolved(o: Options, trace: seq<Timed>): (r: (Result, nat))
    ensures r.1 <= o.timeoutMs * NS_PER_MS
  {
    SettlesOnce(o, trace);
    (Concluded(o, trace).resolutions[0], Concluded(o, trace).settledAt)
  }

  method ProbeOnce(o: Options, trace: seq<Timed>) returns (result: Result, tookNs: nat)
    ensures (result, tookNs) == Resolved(o, trace)
  {
    var attempt := new Attempt(o);
    for k := 0 to |trace|
      invariant attempt.o == o && attempt.View() == Run(o, trace[..k])
    {
      assert trace[..k + 1][..k] == trace[..k];
      attempt.Receive(trace[k]);
    }
    assert trace[..|trace|] == trace;
    attempt.Finish(o.timeoutMs * NS_PER_MS, Timeout);
    SettlesOnce(o, trace);
    result, tookNs := attempt.resolutions[0], attempt.settledAt;
  }

  // ---------------------------------------------------------------- retry ladder

  datatype Backoff = Backoff(baseMs: nat, capMs: nat)

  /** The exponential ceiling in closed form. */
  function Exponential(b: Backoff, attempt: nat): nat {
    Min(b.baseMs * Pow2(attempt), b.capMs)
  }

  function Ceiling(b: Backoff, attempt: nat): (ceiling: nat)
    ensures ceiling == Exponential(b, attempt)
  {
    DoubledIsPower(b.baseMs, attempt);
    Min(Doubled(b.baseMs, attempt), b.capMs)
  }

  /**
   * Full jitter: the draw's share of the exponential ceiling in whole milliseconds, so always
   * below a positive ceiling.
   */
  function BackoffDelay(b: Backoff, attempt: nat, random: real): (delay: nat)
    requires 0.0 <= random < 1.0
    ensures delay as real <= random * (Min(b.baseMs * Pow2(attempt), b.capMs) as real) < (delay + 1) as real
    ensures delay <= Ceiling(b, attempt) && (0 < Ceiling(b, attempt) ==> delay < Ceiling(b, attempt))
  {
    Jitter(random, Ceiling(b, attempt))
  }

  function Jitter(random: real, ceiling: nat): (delay: nat)
    requires 0.0 <= random < 1.0
    ensures delay as real <= random * (ceiling as real) < (delay + 1) as real
    ensures delay <= ceiling && (0 < ceiling ==> delay < ceiling)
  {
    var high := ceiling as real;
    Scaled(random, high);
    FloorWithin(random * high, ceiling)
  }

  function FloorWithin(x: real, high: nat): (n: nat)
    requires 0.0 <= x <= high as real
    ensures n as real <= x < (n + 1) as real
    ensures n <= high && (x < high as real ==> n < high)
  {
    x.Floor
  }

  lemma Scaled(random: real, ceiling: real)
    requires 0.0 <= random < 1.0 && 0.0 <= ceiling
    ensures 0.0 <= random * ceiling <= ceiling
    ensures 0.0 < ceiling ==> random * ceiling < ceiling
  {
    if 0.0 < ceiling {
      assert (1.0 - random) * ceiling > 0.0;
    }
  }

  function CeilingSum(b: Backoff, k: nat): nat {
    if k == 0 then 0 else CeilingSum(b, k - 1) + Exponential(b, k - 1)
  }

  predicate Retries(r: Result) {
    !r.up && r.retryable
  }

  /** One draw from [0, 1) for every retry. */
  predicate Draws(random: seq<real>, maxRetries: nat) {
    |random| == maxRetries && forall k :: 0 <= k < |random| ==> 0.0 <= random[k] < 1.0
  }

  /** The time before attempt k, if it is made: the attempts before it and the delay after each. */
  function TimeBefore(b: Backoff, outcomes: seq<(Result, nat)>, random: seq<real>, k: nat): nat
    requires k < |outcomes| && Draws(random, |outcomes| - 1)
  {
    if k == 0 then 0
    else TimeBefore(b, outcomes, random, k - 1) + outcomes[k - 1].1 + BackoffDelay(b, k - 1, random[k - 1]) * NS_PER_MS
  }

  /**
   * The attempt the ladder ends with, if attempt k is made: the first that is not worth retrying,
   * or the last of all.
   */
  function LastAttempt(outcomes: seq<(Result, nat)>, k: nat): (last: nat)
    requires k < |outcomes|
    ensures k <= last < |outcomes|
    ensures forall i :: k <= i < last ==> Retries(outcomes[i].0)
    ensures Retries(outcomes[last].0) ==> last == |outcomes| - 1
    decreases |outcomes| - k
  {
    if k == |outcomes| - 1 || !Retries(outcomes[k].0) then k else LastAttempt(outcomes, k + 1)
  }

  /** The time of the whole ladder, in nanoseconds. */
  function LadderTime(b: Backoff, outcomes: seq<(Result, nat)>, random: seq<real>): nat
    requires |outcomes| > 0 && Draws(random, |outcomes| - 1)
  {
    var last := LastAttempt(outcomes, 0);
    TimeBefore(b, outcomes, random, last) + outcomes[last].1
  }

  /** The time of a complete check, in nanoseconds. */
  function CheckTime(o: Options, b: Backoff, traces: seq<seq<Timed>>, random: seq<real>): nat
    requires |traces| > 0 && Draws(random, |traces| - 1)
  {
    LadderTime(b, AllResolved(o, traces), random)
  }

  /**
   * A complete check.  `traces` and `random` hold what each attempt meets and each jitter
   * draws.  The result is the last attempt's; a further attempt is made exactly while the
   * result is a retryable failure and retries remain.
   */
  method CheckMonitor(o: Options, maxRetries: nat, b: Backoff, traces: seq<seq<Timed>>, random: seq<real>)
    returns (result: Result, attempts: nat, tookNs: nat)
    requires |traces| == maxRetries + 1 && Draws(random, maxRetries)
    ensures attempts == LastAttempt(AllResolved(o, traces), 0) + 1 && tookNs == CheckTime(o, b, traces, random)
    ensures 1 <= attempts <= maxRetries + 1
    ensures result == AllResolved(o, traces)[attempts - 1].0
    ensures forall k :: 0 <= k < attempts - 1 ==>
              !AllResolved(o, traces)[k].0.up && AllResolved(o, traces)[k].0.retryable
    ensures !result.up && result.retryable ==> attempts == maxRetries + 1
    ensures WithinBudget(o, b, attempts, attempts - 1, tookNs) && InTime(o, b, maxRetries, tookNs)
    ensures Silent(o, AllResolved(o, traces)) ==> attempts == maxRetries + 1 && DeadlinesNs(o, maxRetries + 1) <= tookNs
  {
    ghost var outcomes := AllResolved(o, traces);
    tookNs, attempts, result := 0, 0, Timeout;
    for attempt := 0 to maxRetries + 1
      invariant attempts == attempt && (0 < attempt ==> result == outcomes[attempt - 1].0)
      invariant LadderAt(b, outcomes, random, attempt, tookNs)
    {
      var took;
      result, took := ProbeOnce(o, traces[attempt]);
      assert (result, took) == outcomes[attempt];
      attempts := attempt + 1;
      LadderStep(b, outcomes, random, attempt, tookNs);
      tookNs := tookNs + took;
      if result.up || !result.retryable { break; }
      if attempt < maxRetries {
        var delay := BackoffDelay(b, attempt, random[attempt]);
        tookNs := tookNs + delay * NS_PER_MS;
      }
    }
    LadderBound(o, b, traces, random);
  }

  /** Attempt k is the next one, after this time; past the last one, this is the ladder's time. */
  ghost predicate LadderAt(b: Backoff, outcomes: seq<(Result, nat)>, random: seq<real>, k: nat, tookNs: nat)
    requires k <= |outcomes| && |outcomes| > 0 && Draws(random, |outcomes| - 1)
  {
    if k < |outcomes| then
      LastAttempt(outcomes, k) == LastAttempt(outcomes, 0) && tookNs == TimeBefore(b, outcomes, random, k)
    else LastAttempt(outcomes, 0) == k - 1 && tookNs == LadderTime(b, outcomes, random)
  }

  lemma LadderStep(b: Backoff, outcomes: seq<(Result, nat)>, random: seq<real>, k: nat, tookNs: nat)
    requires k < |outcomes| && Draws(random, |outcomes| - 1) && LadderAt(b, outcomes, random, k, tookNs)
    ensures !Retries(outcomes[k].0) || k == |outcomes| - 1 ==>
              LastAttempt(outcomes, 0) == k && tookNs + outcomes[k].1 == LadderTime(b, outcomes, random)
    ensures Retries(outcomes[k].0) && k < |outcomes| - 1 ==>
              LadderAt(b, outcomes, random, k + 1,
                       tookNs + outcomes[k].1 + BackoffDelay(b, k, random[k]) * NS_PER_MS)
  {
  }

  /** At most the worst case, which is below (maxRetries + 1) deadlines plus every backoff ceiling. */
  predicate InTime(o: Options, b: Backoff, maxRetries: nat, tookNs: nat) {
    && tookNs <= WorstCaseMs(o, b, maxRetries) * NS_PER_MS
    && WorstCaseMs(o, b, maxRetries) <= (maxRetries + 1) * o.timeoutMs + CeilingSum(b, maxRetries)
  }

  /** What every attempt would resolve with, and in what time, if it were made. */
  function AllResolved(o: Options, traces: seq<seq<Timed>>): (outcomes: seq<(Result, nat)>)
    ensures |outcomes| == |traces| && forall k :: 0 <= k < |outcomes| ==> outcomes[k].1 <= o.timeoutMs * NS_PER_MS
  {
    seq(|traces|, k requires 0 <= k < |traces| => Resolved(o, traces[k]))
  }

  /** Every attempt runs into its deadline. */
  predicate Silent(o: Options, outcomes: seq<(Result, nat)>) {
    forall k :: 0 <= k < |outcomes| ==> outcomes[k].1 == o.timeoutMs * NS_PER_MS && Retries(outcomes[k].0)
  }

  /** A time covered by so many deadlines and so many backoff ceilings. */
  predicate WithinBudget(o: Options, b: Backoff, deadlines: nat, delays: nat, tookNs: nat) {
    tookNs <= DeadlinesNs(o, deadlines) + CeilingSum(b, delays) * NS_PER_MS
  }

  lemma AttemptWithin(o: Options, b: Backoff, deadlines: nat, delays: nat, tookNs: nat, took: nat)
    requires WithinBudget(o, b, deadlines, delays, tookNs) && took <= o.timeoutMs * NS_PER_MS
    ensures WithinBudget(o, b, deadlines + 1, delays, tookNs + took)
  {
  }

  lemma DelayWithin(o: Options, b: Backoff, deadlines: nat, delays: nat, tookNs: nat, delay: nat)
    requires WithinBudget(o, b, deadlines, delays, tookNs) && delay <= Exponential(b, delays)
    ensures WithinBudget(o, b, deadlines, delays + 1, tookNs + delay * NS_PER_MS)
  {
  }

  /** n whole deadlines. */
  function DeadlinesNs(o: Options, n: nat): nat {
    if n == 0 then 0 else DeadlinesNs(o, n - 1) + o.timeoutMs * NS_PER_MS
  }

  lemma {:induction false} DeadlinesClosedForm(o: Options, j: nat, k: nat)
    requires j <= k
    ensures DeadlinesNs(o, j) <= DeadlinesNs(o, k) == k * o.timeoutMs * NS_PER_MS
  {
    if j < k {
      DeadlinesClosedForm(o, j, k - 1);
    } else if 0 < k {
      DeadlinesClosedForm(o, k - 1, k - 1);
    }
  }

  // ---------------------------------------------------------------- the exact worst case

  /** The longest delay the jitter can draw after attempt k. */
  function LongestDelay(b: Backoff, k: nat): nat {
    Max(0, Exponential(b, k) - 1)
  }

  function LongestDelays(b: Backoff, k: nat): nat {
    if k == 0 then 0 else LongestDelays(b, k - 1) + LongestDelay(b, k - 1)
  }

  /** Every attempt runs into its deadline and every delay is the longest one. */
  function WorstCaseMs(o: Options, b: Backoff, maxRetries: nat): nat {
    (maxRetries + 1) * o.timeoutMs + LongestDelays(b, maxRetries)
  }

  /** Whatever the target does and the jitter draws, a check keeps to its budget and to the worst case. */
  lemma LadderBound(o: Options, b: Backoff, traces: seq<seq<Timed>>, random: seq<real>)
    requires |traces| > 0 && Draws(random, |traces| - 1)
    ensures var attempts, tookNs := LastAttempt(AllResolved(o, traces), 0) + 1, CheckTime(o, b, traces, random);
            && WithinBudget(o, b, attempts, attempts - 1, tookNs)
            && InTime(o, b, |traces| - 1, tookNs)
            && (Silent(o, AllResolved(o, traces)) ==> attempts == |traces| && DeadlinesNs(o, |traces|) <= tookNs)
  {
    LadderBudget(o, b, AllResolved(o, traces), random);
  }

  lemma LadderBudget(o: Options, b: Backoff, outcomes: seq<(Result, nat)>, random: seq<real>)
    requires |outcomes| > 0 && Draws(random, |outcomes| - 1)
    requires forall i :: 0 <= i < |outcomes| ==> outcomes[i].1 <= o.timeoutMs * NS_PER_MS
    ensures var attempts, tookNs := LastAttempt(outcomes, 0) + 1, LadderTime(b, outcomes, random);
            && WithinBudget(o, b, attempts, attempts - 1, tookNs)
            && InTime(o, b, |outcomes| - 1, tookNs)
            && (Silent(o, outcomes) ==> attempts == |outcomes| && DeadlinesNs(o, |outcomes|) <= tookNs)
  {
    var last, maxRetries := LastAttempt(outcomes, 0), |outcomes| - 1;
    var before, took := TimeBefore(b, outcomes, random, last), outcomes[last].1;
    BeforeBounds(o, b, outcomes, random, last);
    AttemptWithin(o, b, last, last, before, took);
    BudgetInTime(o, b, last, maxRetries, before + took);
  }

  lemma BudgetInTime(o: Options, b: Backoff, last: nat, maxRetries: nat, tookNs: nat)
    requires last <= maxRetries && tookNs <= DeadlinesNs(o, last + 1) + LongestDelays(b, last) * NS_PER_MS
    ensures InTime(o, b, maxRetries, tookNs)
  {
    LongestDelaysMono(b, last, maxRetries);
    DeadlinesClosedForm(o, last + 1, maxRetries + 1);
    LongestWithinCeilings(b, maxRetries);
  }

  /** What has passed before attempt k, against the deadlines and delays so far. */
  lemma {:induction false} BeforeBounds(o: Options, b: Backoff, outcomes: seq<(Result, nat)>, random: seq<real>, k: nat)
    requires k < |outcomes| && Draws(random, |outcomes| - 1)
    requires forall i :: 0 <= i < |outcomes| ==> outcomes[i].1 <= o.timeoutMs * NS_PER_MS
    ensures var before := TimeBefore(b, outcomes, random, k);
            && before <= DeadlinesNs(o, k) + LongestDelays(b, k) * NS_PER_MS
            && WithinBudget(o, b, k, k, before)
            && (Silent(o, outcomes) ==> DeadlinesNs(o, k) <= before)
  {
    if 0 < k {
      BeforeBounds(o, b, outcomes, random, k - 1);
      assert BackoffDelay(b, k - 1, random[k - 1]) <= LongestDelay(b, k - 1);
      AttemptWithin(o, b, k - 1, k - 1, TimeBefore(b, outcomes, random, k - 1), outcomes[k - 1].1);
      DelayWithin(o, b, k, k - 1, TimeBefore(b, outcomes, random, k - 1) + outcomes[k - 1].1,
                  BackoffDelay(b, k - 1, random[k - 1]));
    }
  }

  lemma {:induction false} LongestDelaysMono(b: Backoff, j: nat, k: nat)
    requires j <= k
    ensures LongestDelays(b, j) <= LongestDelays(b, k)
  {
    if j < k { LongestDelaysMono(b, j, k - 1); }
  }

  lemma {:induction false} LongestWithinCeilings(b: Backoff, k: nat)
    ensures LongestDelays(b, k) <= CeilingSum(b, k)
  {
    if 0 < k { LongestWithinCeilings(b, k - 1); }
  }

  /** A draw close enough to 1 for the longest delay. */
  function ExtremeDraw(ceiling: nat): (r: real)
    ensures 0.0 <= r < 1.0
  {
    if ceiling == 0 then 0.0 else (ceiling - 1) as real / ceiling as real
  }

  lemma ExtremeDelay(b: Backoff, k: nat)
    ensures BackoffDelay(b, k, ExtremeDraw(Ceiling(b, k))) == LongestDelay(b, k)
  {
    var ceiling := Ceiling(b, k);
    if 0 < ceiling {
      assert ExtremeDraw(ceiling) * ceiling as real == (ceiling - 1) as real;
    }
  }

  function ExtremeDraws(b: Backoff, maxRetries: nat): (random: seq<real>)
    ensures Draws(random, maxRetries)
  {
    seq(maxRetries, k requires 0 <= k < maxRetries => ExtremeDraw(Ceiling(b, k)))
  }

  lemma {:induction false} SilentBefore(o: Options, b: Backoff, outcomes: seq<(Result, nat)>, k: nat)
    requires k < |outcomes| && Silent(o, outcomes)
    ensures TimeBefore(b, outcomes, ExtremeDraws(b, |outcomes| - 1), k)
            == DeadlinesNs(o, k) + LongestDelays(b, k) * NS_PER_MS
  {
    if 0 < k {
      SilentBefore(o, b, outcomes, k - 1);
      ExtremeDelay(b, k - 1);
    }
  }

  /** The worst case is reached: a silent target and unlucky draws. */
  lemma WorstCaseIsReached(o: Options, b: Backoff, traces: seq<seq<Timed>>)
    requires IsRequestable(o.url) && |traces| > 0 && forall k :: 0 <= k < |traces| ==> traces[k] == []
    ensures CheckTime(o, b, traces, ExtremeDraws(b, |traces| - 1)) == WorstCaseMs(o, b, |traces| - 1) * NS_PER_MS
  {
    SilentTarget(o, traces);
    SilentBefore(o, b, AllResolved(o, traces), |traces| - 1);
    DeadlinesClosedForm(o, 0, |traces|);
  }

  /** No event and no draw makes a check of this target take longer than the interval. */
  ghost predicate AlwaysWithin(o: Options, b: Backoff, maxRetries: nat, intervalMs: nat) {
    forall traces, random :: |traces| == maxRetries + 1 && Draws(random, maxRetries) ==>
      CheckTime(o, b, traces, random) <= intervalMs * NS_PER_MS
  }

  /**
   * No deadline covers the ladder as a whole.  It stays within an interval for everything the
   * target may do exactly when the worst case does, or when no request is ever made.
   */
  lemma LadderFitsInterval(o: Options, b: Backoff, maxRetries: nat, intervalMs: nat)
    ensures AlwaysWithin(o, b, maxRetries, intervalMs)
            <==> !IsRequestable(o.url) || WorstCaseMs(o, b, maxRetries) <= intervalMs
  {
    forall traces, random | |traces| == maxRetries + 1 && Draws(random, maxRetries)
      ensures !IsRequestable(o.url) || WorstCaseMs(o, b, maxRetries) <= intervalMs ==>
                CheckTime(o, b, traces, random) <= intervalMs * NS_PER_MS
    {
      LadderBound(o, b, traces, random);
      if !IsRequestable(o.url) { RefusedAtOnce(o, traces[0]); }
    }
    if IsRequestable(o.url) {
      var silent: seq<seq<Timed>> := seq(maxRetries + 1, _ => []);
      WorstCaseIsReached(o, b, silent);
    }
  }

  predicate IsRequestable(u: Url) {
    u.Url? && u.scheme != OTHER
  }

  /** A malformed or unsupported target takes no time and is not retried. */
  lemma {:induction false} RefusedAtOnce(o: Options, trace: seq<Timed>)
    requires !IsRequestable(o.url)
    ensures Run(o, trace).settled && Run(o, trace).settledAt == 0
    ensures Resolved(o, trace).1 == 0 && !Retries(Resolved(o, trace).0)
  {
    assert [] + trace == trace && Run(o, []) == Start(o);
    ResolutionIsFinal(o, [], trace);
    if trace != [] { RefusedAtOnce(o, trace[..|trace| - 1]); }
  }

  /** A target that never answers costs a whole deadline per attempt, and every attempt is worth retrying. */
  lemma SilentTarget(o: Options, traces: seq<seq<Timed>>)
    requires IsRequestable(o.url) && forall k :: 0 <= k < |traces| ==> traces[k] == []
    ensures Silent(o, AllResolved(o, traces))
  {
    assert !Start(o).settled;
    assert Resolved(o, []).1 == o.timeoutMs * NS_PER_MS && Retries(Resolved(o, []).0);
  }
}
