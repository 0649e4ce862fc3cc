/**
 * Windowed uptime: one aggregation that prefilters the log by the widest window and then
 * groups each window, with percentages rounded to three decimals in exact arithmetic.
 */
module Uptime {
  import opened Common

  type MonitorId = nat

  datatype Row = Row(monitorId: MonitorId, up: bool, latency: Option<nat>, timestamp: int)

  datatype Window = DAY | WEEK | MONTH

  const DAY_MS := 24 * 60 * 60 * 1000

  function WindowMs(w: Window): nat {
    match w
    case DAY => DAY_MS
    case WEEK => 7 * DAY_MS
    case MONTH => 30 * DAY_MS
  }

  function Since(now: int, w: Window): int {
    now - WindowMs(w)
  }

  /** The group stage; latency is accumulated over successful checks that recorded one. */
  datatype Bucket = Bucket(total: nat, up: nat, latencySum: nat, latencyCount: nat, lastCheckAt: Option<int>)

  function Group(rows: seq<Row>): (b: Bucket)
    ensures b.up <= b.total == |rows|
  {
    if rows == [] then Bucket(0, 0, 0, 0, None)
    else
      var b, r := Group(rows[..|rows| - 1]), rows[|rows| - 1];
      var timed := r.up && r.latency.Some?;
      Bucket(b.total + 1, b.up + (if r.up then 1 else 0),
             b.latencySum + (if timed then r.latency.value else 0), b.latencyCount + (if timed then 1 else 0),
             Some(if b.lastCheckAt.Some? then Max(b.lastCheckAt.value, r.timestamp) else r.timestamp))
  }

  /** $match on a monitor and a start time. */
  function Match(rows: seq<Row>, id: MonitorId, since: int): (out: seq<Row>)
    ensures forall r :: r in out <==> r in rows && r.monitorId == id && since <= r.timestamp
  {
    if rows == [] then []
    else
      var r, rest := rows[|rows| - 1], Match(rows[..|rows| - 1], id, since);
      assert rows == rows[..|rows| - 1] + [r];
      if r.monitorId == id && since <= r.timestamp then rest + [r] else rest
  }

  /** What the service reports for a window; `uptime` is in thousandths of a percent. */
  datatype Report = Report(uptime: Option<nat>, totalChecks: nat, upChecks: nat, downChecks: nat,
                           avgLatencyMs: Option<nat>, lastCheckAt: Option<int>, windowStart: int)

  /** m is num / den rounded to the nearest whole number, halves upward. */
  predicate IsNearest(m: nat, num: nat, den: nat) {
    2 * den * m <= 2 * num + den < 2 * den * (m + 1)
  }

  lemma NearestQuotient(num: nat, den: nat)
    requires 1 <= den
    ensures IsNearest((2 * num + den) / (2 * den), num, den)
  {
    var a, d := 2 * num + den, 2 * den;
    assert a == d * (a / d) + a % d;
  }

  /** 100 * up / total to three decimals, halves upward. */
  function MilliPercent(up: nat, total: nat): (m: nat)
    requires 1 <= total
    ensures IsNearest(m, 100000 * up, total)
  {
    NearestQuotient(100000 * up, total);
    (200000 * up + total) / (2 * total)
  }

  /** The mean to the nearest whole millisecond, halves upward. */
  function RoundedMean(sum: nat, count: nat): (m: nat)
    requires 1 <= count
    ensures IsNearest(m, sum, count)
  {
    NearestQuotient(sum, count);
    (2 * sum + count) / (2 * count)
  }

  function Summarise(b: Bucket, windowStart: int): Report
    requires b.up <= b.total
  {
    Report(if 0 < b.total then Some(MilliPercent(b.up, b.total)) else None, b.total, b.up, b.total - b.up,
           if 0 < b.latencyCount then Some(RoundedMean(b.latencySum, b.latencyCount)) else None,
           b.lastCheckAt, windowStart)
  }

  /** The pipeline as written: bound the scan by the widest window, then re-filter per facet. */
  function GetUptimeWindow(log: seq<Row>, id: MonitorId, now: int, w: Window): Report {
    var scanned := Match(log, id, Since(now, MONTH));
    Summarise(Group(Match(scanned, id, Since(now, w))), Since(now, w))
  }

  // ---------------------------------------------------------------- the prefilter is transparent

  lemma {:induction false} MatchTwice(rows: seq<Row>, id: MonitorId, wide: int, narrow: int)
    requires wide <= narrow
    ensures Match(Match(rows, id, wide), id, narrow) == Match(rows, id, narrow)
  {
    if rows != [] {
      var n := |rows| - 1;
      MatchTwice(rows[..n], id, wide, narrow);
      var kept := Match(rows[..n], id, wide);
      if rows[n].monitorId == id && wide <= rows[n].timestamp {
        assert (kept + [rows[n]])[..|kept|] == kept;
      }
    }
  }

  /** Every window is what filtering the monitor's whole log for it alone would give. */
  lemma PrefilterTransparent(log: seq<Row>, id: MonitorId, now: int, w: Window)
    ensures GetUptimeWindow(log, id, now, w) == Summarise(Group(Match(log, id, Since(now, w))), Since(now, w))
  {
    MatchTwice(log, id, Since(now, MONTH), Since(now, w));
  }

  // ---------------------------------------------------------------- counts

  /** Entries of the log that a window counts, and those of them that were UP. */
  function Count(log: seq<Row>, id: MonitorId, since: int, upOnly: bool): nat {
    if log == [] then 0
    else
      var r := log[|log| - 1];
      Count(log[..|log| - 1], id, since, upOnly)
      + if r.monitorId == id && since <= r.timestamp && (upOnly ==> r.up) then 1 else 0
  }

  lemma {:induction false} GroupCounts(log: seq<Row>, id: MonitorId, since: int)
    ensures var b := Group(Match(log, id, since));
            b.total == Count(log, id, since, false) && b.up == Count(log, id, since, true)
  {
    if log != [] {
      var n := |log| - 1;
      GroupCounts(log[..n], id, since);
      var kept := Match(log[..n], id, since);
      assert (kept + [log[n]])[..|kept|] == kept;
    }
  }

  lemma {:induction false} CountShrinks(log: seq<Row>, id: MonitorId, wide: int, narrow: int)
    requires wide <= narrow
    ensures Count(log, id, narrow, true) <= Count(log, id, wide, true)
    ensures Count(log, id, narrow, false) <= Count(log, id, wide, false)
    ensures Count(log, id, narrow, false) - Count(log, id, narrow, true)
            <= Count(log, id, wide, false) - Count(log, id, wide, true)
  {
    if log != [] { CountShrinks(log[..|log| - 1], id, wide, narrow); }
  }

  /** Reports add up, count exactly the log's rows, and are nested from the shortest window to the longest. */
  lemma WindowsNested(log: seq<Row>, id: MonitorId, now: int)
    ensures var d, w := GetUptimeWindow(log, id, now, DAY), GetUptimeWindow(log, id, now, WEEK);
            var m := GetUptimeWindow(log, id, now, MONTH);
            && d.totalChecks <= w.totalChecks <= m.totalChecks
            && d.upChecks <= w.upChecks <= m.upChecks
            && d.downChecks <= w.downChecks <= m.downChecks
    ensures forall w :: var r := GetUptimeWindow(log, id, now, w);
              && r.totalChecks == Count(log, id, Since(now, w), false)
              && r.upChecks == Count(log, id, Since(now, w), true)
              && r.upChecks + r.downChecks == r.totalChecks
              && (r.uptime.None? <==> r.totalChecks == 0)
  {
    forall w ensures var r := GetUptimeWindow(log, id, now, w);
      && r.totalChecks == Count(log, id, Since(now, w), false) && r.upChecks == Count(log, id, Since(now, w), true)
    {
      PrefilterTransparent(log, id, now, w);
      GroupCounts(log, id, Since(now, w));
    }
    CountShrinks(log, id, Since(now, WEEK), Since(now, DAY));
    CountShrinks(log, id, Since(now, MONTH), Since(now, WEEK));
  }

  // ---------------------------------------------------------------- latency and times

  predicate IsTimed(r: Row, id: MonitorId, since: int) {
    r.monitorId == id && since <= r.timestamp && r.up && r.latency.Some?
  }

  /** Number and sum of the latencies that successful checks in the window recorded. */
  function TimedCount(log: seq<Row>, id: MonitorId, since: int): nat {
    if log == [] then 0
    else TimedCount(log[..|log| - 1], id, since) + if IsTimed(log[|log| - 1], id, since) then 1 else 0
  }

  function LatencySum(log: seq<Row>, id: MonitorId, since: int): nat {
    if log == [] then 0
    else LatencySum(log[..|log| - 1], id, since)
         + if IsTimed(log[|log| - 1], id, since) then log[|log| - 1].latency.value else 0
  }

  lemma {:induction false} GroupLatency(log: seq<Row>, id: MonitorId, since: int)
    ensures var b := Group(Match(log, id, since));
            b.latencyCount == TimedCount(log, id, since) && b.latencySum == LatencySum(log, id, since)
  {
    if log != [] {
      var n := |log| - 1;
      GroupLatency(log[..n], id, since);
      var kept := Match(log[..n], id, since);
      assert (kept + [log[n]])[..|kept|] == kept;
    }
  }

  /** The last check is the latest of those grouped, whatever their order. */
  lemma {:induction false} GroupLast(rows: seq<Row>)
    ensures Group(rows).lastCheckAt.None? <==> rows == []
    ensures rows != [] ==>
              && (forall r :: r in rows ==> r.timestamp <= Group(rows).lastCheckAt.value)
              && (exists r :: r in rows && r.timestamp == Group(rows).lastCheckAt.value)
  {
    if rows != [] {
      var rest, last := rows[..|rows| - 1], rows[|rows| - 1];
      assert rows == rest + [last];
      GroupLast(rest);
      assert last in rows;
      if rest != [] {
        var r :| r in rest && r.timestamp == Group(rest).lastCheckAt.value;
        assert r in rows;
      }
    }
  }

  /** The windows are 24 hours, 7 days and 30 days long. */
  function DaysOf(w: Window): nat {
    match w
    case DAY => 1
    case WEEK => 7
    case MONTH => 30
  }

  /**
   * What a window reports, against the rows of the log that fall into it: the percentage is
   * the exact quotient to the nearest thousandth, and the window reaches back so many days.
   */
  lemma PercentageSpec(log: seq<Row>, id: MonitorId, now: int, w: Window)
    ensures var r, since := GetUptimeWindow(log, id, now, w), now - DaysOf(w) * 86_400_000;
            var up, total := Count(log, id, since, true), Count(log, id, since, false);
            && r.windowStart == since
            && (r.uptime.Some? <==> 0 < total) && (0 < total ==> IsNearest(r.uptime.value, 100000 * up, total))
  {
    PrefilterTransparent(log, id, now, w);
    GroupCounts(log, id, Since(now, w));
  }

  /** The mean latency is over successful checks only, to the nearest millisecond. */
  lemma LatencySpec(log: seq<Row>, id: MonitorId, now: int, w: Window)
    ensures var r, since := GetUptimeWindow(log, id, now, w), now - DaysOf(w) * 86_400_000;
            var sum, timed := LatencySum(log, id, since), TimedCount(log, id, since);
            && (r.avgLatencyMs.Some? <==> 0 < timed)
            && (0 < timed ==> IsNearest(r.avgLatencyMs.value, sum, timed))
  {
    PrefilterTransparent(log, id, now, w);
    GroupLatency(log, id, Since(now, w));
  }

  predicate IsInWindow(log: seq<Row>, r: Row, id: MonitorId, since: int) {
    r in log && r.monitorId == id && since <= r.timestamp
  }

  /** The latest time of a row in the window, or none if there is no row. */
  ghost predicate IsLatest(log: seq<Row>, id: MonitorId, since: int, last: Option<int>) {
    match last
    case None => forall x :: x in log ==> !IsInWindow(log, x, id, since)
    case Some(t) =>
      && (forall x :: x in log && IsInWindow(log, x, id, since) ==> x.timestamp <= t)
      && exists x :: x in log && IsInWindow(log, x, id, since) && x.timestamp == t
  }

  lemma LatestOfMatch(log: seq<Row>, id: MonitorId, since: int)
    ensures IsLatest(log, id, since, Group(Match(log, id, since)).lastCheckAt)
  {
    var rows := Match(log, id, since);
    GroupLast(rows);
    if rows != [] {
      var r :| r in rows && r.timestamp == Group(rows).lastCheckAt.value;
      assert r in log && IsInWindow(log, r, id, since);
    } else {
      forall x | x in log ensures !IsInWindow(log, x, id, since) {
        assert x !in rows;
      }
    }
  }

  /** The last check is the latest row in the window, if there is one. */
  lemma LastCheckSpec(log: seq<Row>, id: MonitorId, now: int, w: Window)
    ensures IsLatest(log, id, now - DaysOf(w) * 86_400_000, GetUptimeWindow(log, id, now, w).lastCheckAt)
  {
    PrefilterTransparent(log, id, now, w);
    LatestOfMatch(log, id, Since(now, w));
  }

  // ---------------------------------------------------------------- rounding

  /** A quotient is at least q exactly when q times the divisor fits. */
  lemma QuotientAtLeast(a: nat, d: nat, q: nat)
    requires 1 <= d
    ensures q <= a / d <==> q * d <= a
  {
    assert a == (a / d) * d + a % d;
    if q <= a / d {
      MulMono(q, a / d, d);
    } else {
      MulMono(a / d + 1, q, d);
    }
  }

  lemma MulMono(a: nat, b: nat, d: nat)
    requires a <= b
    ensures a * d <= b * d
  {
  }

  /** 100 is reported exactly when failures are at most one in 200000, 0 exactly when successes are fewer than that. */
  lemma FullAndZero(up: nat, total: nat)
    requires up <= total && 1 <= total
    ensures MilliPercent(up, total) <= 100000
    ensures MilliPercent(up, total) == 100000 <==> 200000 * (total - up) <= total
    ensures MilliPercent(up, total) == 0 <==> 200000 * up < total
  {
    QuotientAtLeast(200000 * up + total, 2 * total, 100000);
    QuotientAtLeast(200000 * up + total, 2 * total, 100001);
    QuotientAtLeast(200000 * up + total, 2 * total, 1);
  }

  /** Below 200000 checks a window reads 100 only if every check in it was UP. */
  lemma HundredMeansAllUp(log: seq<Row>, id: MonitorId, now: int, w: Window)
    requires 0 < Count(log, id, Since(now, w), false) < 200000
    ensures GetUptimeWindow(log, id, now, w).uptime == Some(100000)
            <==> Count(log, id, Since(now, w), true) == Count(log, id, Since(now, w), false)
  {
    PrefilterTransparent(log, id, now, w);
    GroupCounts(log, id, Since(now, w));
    var b := Group(Match(log, id, Since(now, w)));
    FullAndZero(b.up, b.total);
  }
}
