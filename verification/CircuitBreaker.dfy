/**
 * The per-monitor circuit breaker: pure functions from a state and a clock reading to a
 * patch, and what a check persists once its two patches are composed.
 */
module CircuitBreaker {
  import opened Common

  datatype Mode = CLOSED | OPEN | HALF_OPEN

  /** The breaker fields of a monitor document. */
  datatype Breaker = Breaker(mode: Mode, openedAt: Option<int>, retryAt: Option<int>, opens: nat)

  datatype Settings = Settings(threshold: nat, cooldownMs: nat, maxCooldownMs: nat)

  /** The configuration clamps the threshold to at least 1 and the two durations to at least 0. */
  type Config = c: Settings | 1 <= c.threshold witness Settings(5, 60000, 900000)

  datatype Patch = Unchanged | SetMode(mode: Mode) | Replace(breaker: Breaker)

  datatype Verdict = Verdict(allowed: bool, mode: Mode, patch: Patch)

  const Fresh := Breaker(CLOSED, None, None, 0)

  function Apply(b: Breaker, p: Patch): Breaker {
    match p
    case Unchanged => b
    case SetMode(m) => b.(mode := m)
    case Replace(b') => b'
  }

  function CooldownFor(cfg: Config, opens: nat): nat {
    Min(Doubled(cfg.cooldownMs, opens), cfg.maxCooldownMs)
  }

  function EvaluateBreaker(b: Breaker, now: int): Verdict {
    match b.mode
    case CLOSED => Verdict(true, CLOSED, Unchanged)
    case HALF_OPEN => Verdict(true, HALF_OPEN, Unchanged)
    case OPEN =>
      var retryAt := if b.retryAt.Some? then b.retryAt.value else 0;
      if retryAt <= now then Verdict(true, HALF_OPEN, SetMode(HALF_OPEN)) else Verdict(false, OPEN, Unchanged)
  }

  /** An open breaker whose retry time has not come; one without a retry time is over at once. */
  predicate IsCoolingDown(b: Breaker, now: int) {
    b.mode == OPEN && now < if b.retryAt.Some? then b.retryAt.value else 0
  }

  /** A check is refused exactly during the cooldown, and let through as a probe unless the breaker is closed. */
  lemma AllowedUnlessCoolingDown(b: Breaker, now: int)
    ensures EvaluateBreaker(b, now).allowed <==> !IsCoolingDown(b, now)
    ensures EvaluateBreaker(b, now).allowed ==>
              && EvaluateBreaker(b, now).mode == (if b.mode == CLOSED then CLOSED else HALF_OPEN)
              && Apply(b, EvaluateBreaker(b, now).patch) == b.(mode := EvaluateBreaker(b, now).mode)
    ensures !EvaluateBreaker(b, now).allowed ==>
              EvaluateBreaker(b, now).mode == OPEN && EvaluateBreaker(b, now).patch == Unchanged
  {
  }

  function OnCheckSuccess(b: Breaker): Patch {
    if b.mode == CLOSED then Unchanged else Replace(Fresh)
  }

  function OnCheckFailure(cfg: Config, b: Breaker, consecutiveFailures: nat, now: int): Patch {
    if b.mode == HALF_OPEN then
      Replace(Breaker(OPEN, Some(now), Some(now + CooldownFor(cfg, b.opens + 1)), b.opens + 1))
    else if b.mode == CLOSED && cfg.threshold <= consecutiveFailures then
      Replace(Breaker(OPEN, Some(now), Some(now + CooldownFor(cfg, 0)), 1))
    else
      Unchanged
  }

  /**
   * The breaker fields a check persists.  The outcome patch is computed from the monitor as
   * loaded, not as patched by the verdict, so a failed probe from OPEN leaves HALF_OPEN behind.
   */
  function AfterCheck(cfg: Config, b: Breaker, verdict: Verdict, up: bool, consecutiveFailures: nat, now: int)
    : Breaker
  {
    Apply(Apply(b, verdict.patch), if up then OnCheckSuccess(b) else OnCheckFailure(cfg, b, consecutiveFailures, now))
  }

  // ---------------------------------------------------------------- the invariant of every run

  /** The first opening uses the base cooldown but counts as 1; reopening uses the new count. */
  function Exponent(opens: nat): nat {
    if opens <= 1 then 0 else opens
  }

  ghost predicate Inv(cfg: Config, b: Breaker, consecutiveFailures: nat) {
    && (b.mode == CLOSED <==> consecutiveFailures < cfg.threshold)
    && (b.mode == CLOSED ==> b == Fresh)
    && (b.mode != CLOSED ==>
          && 1 <= b.opens && b.openedAt.Some? && b.retryAt.Some?
          && b.retryAt.value - b.openedAt.value == CooldownFor(cfg, Exponent(b.opens)))
  }

  /** Each step up doubles the cooldown until the cap holds it. */
  lemma CooldownDoubles(cfg: Config, opens: nat)
    ensures CooldownFor(cfg, 0) == Min(cfg.cooldownMs, cfg.maxCooldownMs)
    ensures CooldownFor(cfg, opens + 1) == Min(2 * CooldownFor(cfg, opens), cfg.maxCooldownMs)
    ensures CooldownFor(cfg, opens) == Min(cfg.cooldownMs * Pow2(opens), cfg.maxCooldownMs)
  {
    DoubledIsPower(cfg.cooldownMs, opens);
  }

  lemma CooldownMonotone(cfg: Config, m: nat, n: nat)
    requires m <= n
    ensures CooldownFor(cfg, m) <= CooldownFor(cfg, n)
  {
    DoubledMonotone(cfg.cooldownMs, m, n);
  }

  /**
   * Every check keeps the invariant; a success closes and clears everything; a failing probe
   * reopens only from HALF_OPEN, and no failure shortens the cooldown in force.
   */
  lemma CheckKeepsInv(cfg: Config, b: Breaker, consecutiveFailures: nat, evaluatedAt: int, up: bool, now: int)
    requires Inv(cfg, b, consecutiveFailures) && EvaluateBreaker(b, evaluatedAt).allowed
    ensures var fails := if up then 0 else consecutiveFailures + 1;
            var b' := AfterCheck(cfg, b, EvaluateBreaker(b, evaluatedAt), up, fails, now);
            && Inv(cfg, b', fails)
            && (up ==> b' == Fresh)
            && (!up && b.mode != CLOSED ==>
                  && b'.mode != CLOSED
                  && (b'.mode == OPEN <==> b.mode == HALF_OPEN)
                  && b.retryAt.value - b.openedAt.value <= b'.retryAt.value - b'.openedAt.value)
  {
    if !up && b.mode == HALF_OPEN {
      CooldownMonotone(cfg, Exponent(b.opens), b.opens + 1);
    }
  }

  // ---------------------------------------------------------------- a target that never recovers

  /** One failing check: when the breaker was consulted and when the result was written. */
  datatype Attempt = Attempt(evaluatedAt: int, writtenAt: int)

  /** The persisted breaker after a fresh monitor has failed every one of these checks. */
  function FailRun(cfg: Config, checks: seq<Attempt>): Breaker {
    if checks == [] then Fresh
    else
      var n := |checks| - 1;
      var b := FailRun(cfg, checks[..n]);
      AfterCheck(cfg, b, EvaluateBreaker(b, checks[n].evaluatedAt), false, n + 1, checks[n].writtenAt)
  }

  /** Checks the breaker let through, on a clock that never goes back. */
  ghost predicate Admissible(cfg: Config, checks: seq<Attempt>) {
    && (forall k :: 0 <= k < |checks| ==>
          && EvaluateBreaker(FailRun(cfg, checks[..k]), checks[k].evaluatedAt).allowed
          && checks[k].evaluatedAt <= checks[k].writtenAt)
    && (forall j, k :: 0 <= j < k < |checks| ==> checks[j].writtenAt <= checks[k].evaluatedAt)
  }

  /** How often the breaker has opened after n failures, and which failure opened it last. */
  function OpensAfter(cfg: Config, n: nat): nat {
    if n < cfg.threshold then 0 else (n - cfg.threshold) / 2 + 1
  }

  function OpenedBy(cfg: Config, opens: nat): int {
    cfg.threshold + 2 * (opens - 1) - 1
  }

  /** The breaker as a closed form of the number of failures seen so far. */
  ghost predicate DeadTargetState(cfg: Config, checks: seq<Attempt>, b: Breaker) {
    var n, opens := |checks|, OpensAfter(cfg, |checks|);
    if n < cfg.threshold then b == Fresh
    else
      && b.mode == (if (n - cfg.threshold) % 2 == 0 then OPEN else HALF_OPEN)
      && b.opens == opens
      && b.openedAt == Some(checks[OpenedBy(cfg, opens)].writtenAt)
      && b.retryAt == Some(checks[OpenedBy(cfg, opens)].writtenAt + CooldownFor(cfg, Exponent(opens)))
  }

  /** One more failure: opens at the threshold, then OPEN to HALF_OPEN, then HALF_OPEN to OPEN. */
  lemma DeadTargetStep(cfg: Config, checks: seq<Attempt>, b: Breaker, next: Attempt)
    requires DeadTargetState(cfg, checks, b) && EvaluateBreaker(b, next.evaluatedAt).allowed
    ensures DeadTargetState(cfg, checks + [next],
                            AfterCheck(cfg, b, EvaluateBreaker(b, next.evaluatedAt), false, |checks| + 1,
                                       next.writtenAt))
  {
    var n, all := |checks|, checks + [next];
    if cfg.threshold <= n {
      var opens := OpensAfter(cfg, n);
      if (n - cfg.threshold) % 2 == 0 {
        assert OpensAfter(cfg, n + 1) == opens;
        assert all[OpenedBy(cfg, opens)] == checks[OpenedBy(cfg, opens)];
      } else {
        assert OpensAfter(cfg, n + 1) == opens + 1 && OpenedBy(cfg, opens + 1) == n;
      }
    }
  }

  /**
   * On a target that never recovers the breaker opens at the threshold and from then on
   * alternates: one failed probe leaves HALF_OPEN, the next one reopens.  So exactly two
   * probes lie between consecutive open periods.
   */
  lemma {:induction false} DeadTargetCycle(cfg: Config, checks: seq<Attempt>)
    requires Admissible(cfg, checks)
    ensures DeadTargetState(cfg, checks, FailRun(cfg, checks))
  {
    if checks != [] {
      var n := |checks| - 1;
      AdmissiblePrefix(cfg, checks, n);
      DeadTargetCycle(cfg, checks[..n]);
      DeadTargetStep(cfg, checks[..n], FailRun(cfg, checks[..n]), checks[n]);
      assert checks[..n] + [checks[n]] == checks;
    }
  }

  lemma AdmissiblePrefix(cfg: Config, checks: seq<Attempt>, n: nat)
    requires Admissible(cfg, checks) && n <= |checks|
    ensures Admissible(cfg, checks[..n])
  {
    forall k | 0 <= k < n ensures EvaluateBreaker(FailRun(cfg, checks[..n][..k]), checks[..n][k].evaluatedAt).allowed {
      assert checks[..n][..k] == checks[..k];
    }
  }

  /** Every check past the threshold is a probe, so it makes a single attempt with no retries. */
  lemma ProbesAreSingleAttempt(cfg: Config, checks: seq<Attempt>, k: nat)
    requires Admissible(cfg, checks) && k < |checks|
    ensures EvaluateBreaker(FailRun(cfg, checks[..k]), checks[k].evaluatedAt).mode
            == if k < cfg.threshold then CLOSED else HALF_OPEN
  {
    AdmissiblePrefix(cfg, checks, k);
    DeadTargetCycle(cfg, checks[..k]);
  }

  /** The cooldowns of the first k openings: exponents 0, 2, 3, …, k. */
  function CooldownSum(cfg: Config, k: nat): nat {
    if k == 0 then 0 else CooldownSum(cfg, k - 1) + CooldownFor(cfg, Exponent(k))
  }

  /** What the k-th opening leaves behind. */
  lemma OpenedState(cfg: Config, checks: seq<Attempt>, k: nat)
    requires Admissible(cfg, checks) && 1 <= k && |checks| == OpenedBy(cfg, k) + 1
    ensures var b := FailRun(cfg, checks);
            b.mode == OPEN && b.retryAt == Some(checks[OpenedBy(cfg, k)].writtenAt + CooldownFor(cfg, Exponent(k)))
  {
    DeadTargetCycle(cfg, checks);
    OpensAtOpening(cfg, k);
    assert |checks| - cfg.threshold == 2 * (k - 1);
  }

  /** The k-th opening is the one that makes the count k, an even number of failures past the threshold. */
  lemma OpensAtOpening(cfg: Config, k: nat)
    requires 1 <= k
    ensures cfg.threshold <= OpenedBy(cfg, k) + 1 && OpensAfter(cfg, OpenedBy(cfg, k) + 1) == k
    ensures (OpenedBy(cfg, k) + 1 - cfg.threshold) % 2 == 0
  {
    assert 2 * (k - 1) / 2 == k - 1;
  }

  /** The probe that follows the k-th opening waits out the k-th cooldown. */
  lemma ProbeWaitsOutCooldown(cfg: Config, checks: seq<Attempt>, k: nat)
    requires Admissible(cfg, checks) && 1 <= k && OpenedBy(cfg, k) + 1 < |checks|
    ensures checks[OpenedBy(cfg, k)].writtenAt + CooldownFor(cfg, Exponent(k))
            <= checks[OpenedBy(cfg, k) + 1].evaluatedAt
  {
    var probe := OpenedBy(cfg, k) + 1;
    assert EvaluateBreaker(FailRun(cfg, checks[..probe]), checks[probe].evaluatedAt).allowed;
    AdmissiblePrefix(cfg, checks, probe);
    OpenedState(cfg, checks[..probe], k);
    AllowedUnlessCoolingDown(FailRun(cfg, checks[..probe]), checks[probe].evaluatedAt);
  }

  /**
   * And it does not wait longer: right after the k-th opening a check is let through, as a
   * probe, exactly from the moment the k-th cooldown has run out.
   */
  lemma ProbeComesWithCooldown(cfg: Config, checks: seq<Attempt>, k: nat, now: int)
    requires Admissible(cfg, checks) && 1 <= k && |checks| == OpenedBy(cfg, k) + 1
    ensures EvaluateBreaker(FailRun(cfg, checks), now).allowed
            <==> checks[OpenedBy(cfg, k)].writtenAt + CooldownFor(cfg, Exponent(k)) <= now
    ensures EvaluateBreaker(FailRun(cfg, checks), now).allowed ==>
              EvaluateBreaker(FailRun(cfg, checks), now).mode == HALF_OPEN
  {
    OpenedState(cfg, checks, k);
    AllowedUnlessCoolingDown(FailRun(cfg, checks), now);
  }

  /** k openings followed by one more probe take at least the sum of the k cooldowns. */
  lemma {:induction false} DeadTargetLoad(cfg: Config, checks: seq<Attempt>, k: nat)
    requires Admissible(cfg, checks) && 1 <= k && OpenedBy(cfg, k) + 1 < |checks|
    ensures checks[OpenedBy(cfg, 1)].writtenAt + CooldownSum(cfg, k) <= checks[OpenedBy(cfg, k) + 1].evaluatedAt
  {
    ProbeWaitsOutCooldown(cfg, checks, k);
    if 1 < k {
      DeadTargetLoad(cfg, checks, k - 1);
      var half := OpenedBy(cfg, k) - 1;
      assert checks[half].evaluatedAt <= checks[half].writtenAt <= checks[half + 1].evaluatedAt;
      assert CooldownSum(cfg, k) == CooldownSum(cfg, k - 1) + CooldownFor(cfg, Exponent(k));
    }
  }
}
