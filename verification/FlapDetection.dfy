/**
 * Flap detection: two counters and a confirmed status, updated one check at a time, against
 * a specification stated over the whole history of results.
 */
module FlapDetection {
  import opened Common

  datatype Health = UP | DOWN

  /** The persisted flap fields of a monitor document. */
  datatype Flap = Flap(status: Health, failures: nat, successes: nat)

  datatype Transition = Stay | ShouldOpen | ShouldClose

  const Fresh := Flap(UP, 0, 0)

  function Counted(f: Flap, up: bool): Flap {
    if up then f.(failures := 0, successes := f.successes + 1)
    else f.(failures := f.failures + 1, successes := 0)
  }

  function Decide(f: Flap, failureThreshold: nat, successThreshold: nat, up: bool): Transition {
    var c := Counted(f, up);
    if !up && f.status == UP && failureThreshold <= c.failures then ShouldOpen
    else if up && f.status == DOWN && successThreshold <= c.successes then ShouldClose
    else Stay
  }

  function AfterResult(f: Flap, failureThreshold: nat, successThreshold: nat, up: bool): Flap {
    match Decide(f, failureThreshold, successThreshold, up)
    case Stay => Counted(f, up)
    case ShouldOpen => Counted(f, up).(status := DOWN)
    case ShouldClose => Counted(f, up).(status := UP)
  }

  /** The persisted state after a history of results, oldest first; true is UP. */
  function RunFlap(history: seq<bool>, n: nat, m: nat): Flap {
    if history == [] then Fresh
    else AfterResult(RunFlap(history[..|history| - 1], n, m), n, m, history[|history| - 1])
  }

  // ---------------------------------------------------------------- the declarative specification

  /** The len entries of s from position at all equal result. */
  predicate RunAt(s: seq<bool>, at: int, len: nat, result: bool) {
    0 <= at && at + len <= |s| && forall i :: at <= i < at + len ==> s[i] == result
  }

  ghost predicate SuccessesSince(s: seq<bool>, since: int, m: nat) {
    exists j :: since <= j && RunAt(s, j, m, true)
  }

  /** The n results before position k all failed, and no m consecutive successes came after. */
  ghost predicate ConfirmedAt(history: seq<bool>, n: nat, m: nat, k: int) {
    RunAt(history, k - n, n, false) && !SuccessesSince(history, k, m)
  }

  ghost predicate IsDown(history: seq<bool>, n: nat, m: nat) {
    exists k :: ConfirmedAt(history, n, m, k)
  }

  /** `len` is the length of the longest suffix consisting of `result` only. */
  ghost predicate TrailingRun(s: seq<bool>, result: bool, len: nat) {
    RunAt(s, |s| - len, len, result) && (len < |s| ==> s[|s| - len - 1] != result)
  }

  /** Both counters are the lengths of the trailing runs of their kind. */
  lemma {:induction false} CountersAreTrailingRuns(history: seq<bool>, n: nat, m: nat)
    ensures TrailingRun(history, false, RunFlap(history, n, m).failures)
    ensures TrailingRun(history, true, RunFlap(history, n, m).successes)
  {
    if history != [] {
      CountersAreTrailingRuns(history[..|history| - 1], n, m);
    }
  }

  /** Runs that lie in the prefix are unaffected by one more result. */
  lemma RunAtSnoc(h: seq<bool>, r: bool, at: int, len: nat, result: bool)
    requires at + len <= |h|
    ensures RunAt(h + [r], at, len, result) <==> RunAt(h, at, len, result)
  {
    assert forall i :: 0 <= i < |h| ==> h[i] == (h + [r])[i];
  }

  /** A new success run can only end at the new result. */
  lemma SuccessesSinceSnoc(h: seq<bool>, r: bool, since: int, m: nat, successes: nat)
    requires 1 <= m && 1 <= since <= |h| && !h[since - 1] && TrailingRun(h + [r], true, successes)
    ensures SuccessesSince(h + [r], since, m) <==> SuccessesSince(h, since, m) || m <= successes
  {
    var t := h + [r];
    if SuccessesSince(h, since, m) {
      var j :| since <= j && RunAt(h, j, m, true);
      RunAtSnoc(h, r, j, m, true);
      assert RunAt(t, j, m, true);
    }
    if m <= successes {
      assert t[since - 1] == false;
      assert RunAt(t, |t| - m, m, true);
    }
    if SuccessesSince(t, since, m) && successes < m {
      var j :| since <= j && RunAt(t, j, m, true);
      assert !t[|t| - successes - 1];
      RunAtSnoc(h, r, j, m, true);
    }
  }

  /** How one more result changes the specification. */
  lemma IsDownSnoc(h: seq<bool>, r: bool, n: nat, m: nat, failures: nat, successes: nat)
    requires 1 <= n && 1 <= m
    requires TrailingRun(h + [r], false, failures) && TrailingRun(h + [r], true, successes)
    ensures IsDown(h + [r], n, m) <==> (IsDown(h, n, m) && successes < m) || n <= failures
  {
    var t := h + [r];
    if n <= failures {
      assert ConfirmedAt(t, n, m, |t|);
    }
    if IsDown(h, n, m) && successes < m {
      var k :| ConfirmedAt(h, n, m, k);
      assert !h[k - 1];
      SuccessesSinceSnoc(h, r, k, m, successes);
      RunAtSnoc(h, r, k - n, n, false);
      assert ConfirmedAt(t, n, m, k);
    }
    if IsDown(t, n, m) && failures < n {
      var k :| ConfirmedAt(t, n, m, k);
      assert failures < |t| ==> t[|t| - failures - 1];
      RunAtSnoc(h, r, k - n, n, false);
      assert !h[k - 1];
      SuccessesSinceSnoc(h, r, k, m, successes);
      assert ConfirmedAt(h, n, m, k);
    }
  }

  /**
   * The incremental counters refine the specification: for fixed thresholds and every
   * history, the status is DOWN iff some n consecutive failures were not followed by m
   * consecutive successes.
   */
  lemma {:induction false} StatusRefinesHistory(history: seq<bool>, n: nat, m: nat)
    requires 1 <= n && 1 <= m
    ensures RunFlap(history, n, m).status == DOWN <==> IsDown(history, n, m)
  {
    if history == [] {
      assert !IsDown([], n, m);
    } else {
      var h, r := history[..|history| - 1], history[|history| - 1];
      assert history == h + [r];
      StatusRefinesHistory(h, n, m);
      CountersAreTrailingRuns(history, n, m);
      IsDownSnoc(h, r, n, m, RunFlap(history, n, m).failures, RunFlap(history, n, m).successes);
    }
  }
}
