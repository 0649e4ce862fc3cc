/**
 * Properties of whole sequences of ticks: every due monitor is eventually checked although a
 * batch is bounded, and no target is checked more often than the interval floor allows.
 */
module Fairness {
  import opened Common
  import opened Incidents
  import opened Checks
  import opened Scheduler
  import B = CircuitBreaker

  type Monitors = map<MonitorId, Monitor>

  /** One tick of the leader: the stored monitors when it starts, its batch, and its check results. */
  datatype Round = Round(before: Monitors, now: int, due: seq<MonitorId>, checks: map<MonitorId, Check>)

  function After(cfg: B.Config, r: Round): Monitors
    requires Ids(r.due) <= r.checks.Keys
  {
    BatchMonitors(cfg, r.before, Ids(r.due), r.checks)
  }

  /** Every check starts and ends after its tick began, and no check was ever recorded in the future. */
  ghost predicate Possible(r: Round) {
    && DueBatch(r.before, r.now, r.due)
    && Ids(r.due) <= r.checks.Keys
    && (forall id :: id in Ids(r.due) ==> r.checks[id].tickNow == r.now <= r.checks[id].startedAt <= r.checks[id].now)
    && (forall id :: id in r.before && r.before[id].lastChecked.Some? ==> r.before[id].lastChecked.value <= r.now)
  }

  /**
   * The backward-jump arm of the due query never fires on a forward clock: if no monitor was
   * checked in the future when a tick began, none is by the time its checks have ended, and
   * being due then means being scheduled.
   */
  lemma NoFutureChecks(cfg: B.Config, r: Round, later: int)
    requires Possible(r) && r.now <= later && forall id :: id in Ids(r.due) ==> r.checks[id].now <= later
    ensures var ms := After(cfg, r);
            forall id :: id in ms ==>
              && (ms[id].lastChecked.Some? ==> ms[id].lastChecked.value <= later)
              && (IsDue(ms[id], later) <==> ms[id].active != Some(false) && ms[id].nextCheckAt <= later)
  {
    var ms := After(cfg, r);
    forall id | id in ms ensures ms[id].lastChecked.Some? ==> ms[id].lastChecked.value <= later {
      if id in Ids(r.due) {
        SingleWriterUpdate(cfg, r.before[id], r.checks[id].tickNow, r.checks[id].up, r.checks[id].now);
      }
    }
  }

  predicate Starts(r: Round, id: MonitorId) {
    id in r.due && id in r.before && B.EvaluateBreaker(r.before[id].breaker, r.now).allowed
  }

  // ---------------------------------------------------------------- a batch always exists

  /** Any set of stored monitors can be listed once each, most overdue first. */
  lemma {:induction false} SortedListing(ms: Monitors, s: set<MonitorId>) returns (ids: seq<MonitorId>)
    requires s <= ms.Keys
    ensures Distinct(ids) && Ids(ids) == s
    ensures forall i, j :: 0 <= i < j < |ids| ==> ms[ids[i]].nextCheckAt <= ms[ids[j]].nextCheckAt
    decreases |s|
  {
    if s == {} {
      ids := [];
    } else {
      var last := LatestOf(ms, s);
      var rest := SortedListing(ms, s - {last});
      assert forall i :: 0 <= i < |rest| ==> rest[i] in Ids(rest);
      IdsSnoc(rest, last);
      ids := rest + [last];
    }
  }

  lemma {:induction false} LatestOf(ms: Monitors, s: set<MonitorId>) returns (last: MonitorId)
    requires s != {} && s <= ms.Keys
    ensures last in s && forall id :: id in s ==> ms[id].nextCheckAt <= ms[last].nextCheckAt
    decreases |s|
  {
    last :| last in s;
    if s != {last} {
      assert s - {last} != {};
      var other := LatestOf(ms, s - {last});
      if ms[last].nextCheckAt <= ms[other].nextCheckAt { last := other; }
    }
  }

  /** Whatever is stored and whatever the time, some batch answers the due query. */
  lemma DueBatchExists(ms: Monitors, now: int)
    ensures exists due :: DueBatch(ms, now, due)
  {
    var all := set id | id in ms && IsDue(ms[id], now);
    var ids := SortedListing(ms, all);
    var due := ids[..Min(|ids|, MAX_BATCH)];
    assert forall i :: 0 <= i < |due| ==> due[i] in Ids(ids);
    forall id | id in ms && IsDue(ms[id], now) && id !in due
      ensures |due| == MAX_BATCH && forall i :: 0 <= i < |due| ==> ms[due[i]].nextCheckAt <= ms[id].nextCheckAt
    {
      assert id in Ids(ids);
      var k :| 0 <= k < |ids| && ids[k] == id;
      assert forall i :: 0 <= i < |due| ==> due[i] == ids[i];
    }
    assert DueBatch(ms, now, due);
  }

  // ---------------------------------------------------------------- starvation-freedom

  /** Everything that may be selected before x, ties included. */
  function Ahead(ms: Monitors, x: MonitorId): set<MonitorId>
    requires x in ms
  {
    set id | id in ms && id != x && ms[id].active != Some(false) && ms[id].nextCheckAt <= ms[x].nextCheckAt
  }

  /** Owner activity between two ticks that does not touch x's schedule and puts nothing new ahead of it. */
  ghost predicate Quiet(ms: Monitors, ms': Monitors, x: MonitorId) {
    && x in ms && x in ms'
    && ms'[x].nextCheckAt == ms[x].nextCheckAt && (ms'[x].active == Some(false) <==> ms[x].active == Some(false))
    && Ahead(ms', x) <= Ahead(ms, x)
  }

  /** Pausing, deleting and re-configuring monitors is quiet, and so is creating one after x fell due. */
  lemma OwnerActivityIsQuiet(ms: Monitors, ms': Monitors, x: MonitorId)
    requires x in ms && x in ms' && (ms'[x].active == Some(false) <==> ms[x].active == Some(false))
    requires forall id :: id in ms' && id in ms ==>
               ms'[id].nextCheckAt == ms[id].nextCheckAt
                 && (ms[id].active == Some(false) ==> ms'[id].active == Some(false))
    requires forall id :: id in ms' && id !in ms ==> ms[x].nextCheckAt < ms'[id].nextCheckAt
    ensures Quiet(ms, ms', x)
  {
  }

  /** x is started in this round and its status write succeeds. */
  predicate Records(r: Round, x: MonitorId) {
    Starts(r, x) && x in r.checks && r.checks[x].fault != StatusWriteFails
  }

  /** The members of the batch that leave the head of the queue, and those that keep their place. */
  function Moved(r: Round): set<MonitorId> {
    set id | id in Ids(r.due) && Records(r, id)
  }

  function Held(r: Round): set<MonitorId> {
    Ids(r.due) - Moved(r)
  }

  /** The due monitors whose breakers hold them back. */
  function Cooling(ms: Monitors, now: int): set<MonitorId> {
    set id | id in ms && IsDue(ms[id], now) && B.IsCoolingDown(ms[id].breaker, now)
  }

  /** Without write failures only open breakers hold a place, so counting those bounds what a batch can lose. */
  lemma HeldIsCooling(r: Round)
    requires Possible(r) && forall id :: id in r.due ==> id in r.checks && r.checks[id].fault != StatusWriteFails
    ensures Held(r) <= Cooling(r.before, r.now) && |Held(r)| <= |Cooling(r.before, r.now)|
  {
    forall id | id in Held(r) ensures id in Cooling(r.before, r.now) {
      InBatch(r.due, id);
      B.AllowedUnlessCoolingDown(r.before[id].breaker, r.now);
    }
    SubsetCount(Held(r), Cooling(r.before, r.now));
  }

  lemma InBatch(ids: seq<MonitorId>, x: MonitorId)
    ensures x in ids <==> x in Ids(ids)
  {
  }

  /** A successful write moves a checked monitor strictly behind every monitor that was due. */
  lemma CheckedMovesBehind(cfg: B.Config, r: Round, id: MonitorId)
    requires Possible(r) && Records(r, id) && id in Ids(r.due)
    ensures id in After(cfg, r) && r.now < After(cfg, r)[id].nextCheckAt
  {
  }

  /** Whatever is skipped or not recorded stays exactly as it was. */
  lemma HeldStays(cfg: B.Config, r: Round, id: MonitorId)
    requires Possible(r) && id in r.before && id !in Moved(r)
    ensures id in After(cfg, r) && After(cfg, r)[id] == r.before[id]
  {
    InBatch(r.due, id);
  }

  /** If a due monitor is passed over, every recorded member of the full batch leaves the queue in front of it. */
  lemma PassedOverAdvances(cfg: B.Config, r: Round, x: MonitorId)
    requires Possible(r) && x in r.before && IsDue(r.before[x], r.now) && x !in r.due
    ensures After(cfg, r)[x] == r.before[x]
    ensures |Ahead(After(cfg, r), x)| <= |Ahead(r.before, x)| - |Moved(r)|
    ensures |Moved(r)| == 500 - |Held(r)|
  {
    var moved, ahead, ahead' := Moved(r), Ahead(r.before, x), Ahead(After(cfg, r), x);
    DistinctIdsCount(r.due);
    InBatch(r.due, x);
    forall id | id in moved ensures id in ahead && id !in ahead' {
      CheckedMovesBehind(cfg, r, id);
    }
    forall id | id in ahead' ensures id in ahead - moved {
      HeldStays(cfg, r, id);
    }
    SubsetCount(ahead', ahead - moved);
    assert |ahead - moved| == |ahead| - |moved|;
    assert |Held(r)| == |Ids(r.due)| - |moved|;
  }

  lemma {:induction false} SubsetCount<T>(a: set<T>, b: set<T>)
    requires a <= b
    ensures |a| <= |b|
  {
    if a != {} {
      var e :| e in a;
      SubsetCount(a - {e}, b - {e});
    }
  }

  /**
   * Consecutive ticks of one leader, each of whose batches holds at most MAX_BATCH - step members
   * that stay where they are.
   */
  ghost predicate AdvancingRun(cfg: B.Config, rounds: seq<Round>, x: MonitorId, step: nat) {
    && (forall j :: 0 <= j < |rounds| ==> Possible(rounds[j]) && |Held(rounds[j])| + step <= MAX_BATCH)
    && (forall j :: 0 <= j < |rounds| - 1 ==>
          && rounds[j].now <= rounds[j + 1].now
          && Quiet(After(cfg, rounds[j]), rounds[j + 1].before, x))
  }

  /** x reaches this round's batch, and is started if its own breaker allows it. */
  predicate Reaches(r: Round, x: MonitorId) {
    x in r.due && x in r.before && (!B.IsCoolingDown(r.before[x].breaker, r.now) ==> Starts(r, x))
  }

  /** How many monitors leave the queue in front of x while n rounds pass it over. */
  function Progress(n: nat, step: nat): nat {
    if n == 0 then 0 else Progress(n - 1, step) + step
  }

  lemma {:induction false} ProgressIsProduct(n: nat, step: nat)
    ensures Progress(n, step) == n * step
  {
    if 0 < n { ProgressIsProduct(n - 1, step); }
  }

  /** From round i on, x reaches a round after no more others than it takes k monitors to leave. */
  ghost predicate ReachesWithin(rounds: seq<Round>, x: MonitorId, i: nat, step: nat, k: nat) {
    exists j :: i <= j < |rounds| && Progress(j - i, step) <= k && Reaches(rounds[j], x)
  }

  /** x is stored and due when round i begins. */
  predicate Waits(rounds: seq<Round>, x: MonitorId, i: nat) {
    i < |rounds| && x in rounds[i].before && IsDue(rounds[i].before[x], rounds[i].now)
  }

  function Distance(rounds: seq<Round>, x: MonitorId, i: nat): nat
    requires Waits(rounds, x, i)
  {
    |Ahead(rounds[i].before, x)|
  }

  /** Each round that passes x over brings it a step closer to the head of the queue. */
  ghost predicate Approaches(rounds: seq<Round>, x: MonitorId, step: nat) {
    forall i: nat :: Waits(rounds, x, i) && x !in rounds[i].due ==> IsCloser(rounds, x, step, i)
  }

  ghost predicate IsCloser(rounds: seq<Round>, x: MonitorId, step: nat, i: nat)
    requires Waits(rounds, x, i)
  {
    && step <= Distance(rounds, x, i)
    && (i + 1 < |rounds| ==> Waits(rounds, x, i + 1) && Distance(rounds, x, i + 1) + step <= Distance(rounds, x, i))
  }

  lemma AdvancingApproaches(cfg: B.Config, rounds: seq<Round>, x: MonitorId, step: nat)
    requires AdvancingRun(cfg, rounds, x, step)
    ensures Approaches(rounds, x, step)
  {
    forall i: nat | Waits(rounds, x, i) && x !in rounds[i].due ensures IsCloser(rounds, x, step, i) {
      CloserAt(cfg, rounds, x, step, i);
    }
  }

  lemma CloserAt(cfg: B.Config, rounds: seq<Round>, x: MonitorId, step: nat, i: nat)
    requires AdvancingRun(cfg, rounds, x, step) && Waits(rounds, x, i) && x !in rounds[i].due
    ensures IsCloser(rounds, x, step, i)
  {
    PassedOverAdvances(cfg, rounds[i], x);
    if i + 1 < |rounds| { CloserNext(cfg, rounds[i], rounds[i + 1], x, step); }
  }

  lemma CloserNext(cfg: B.Config, r: Round, next: Round, x: MonitorId, step: nat)
    requires Possible(r) && |Held(r)| + step <= MAX_BATCH && r.now <= next.now && Quiet(After(cfg, r), next.before, x)
    requires x in r.before && IsDue(r.before[x], r.now) && x !in r.due
    ensures x in next.before && IsDue(next.before[x], next.now)
    ensures |Ahead(next.before, x)| + step <= |Ahead(r.before, x)|
  {
    PassedOverAdvances(cfg, r, x);
    SubsetCount(Ahead(next.before, x), Ahead(After(cfg, r), x));
  }

  lemma {:induction false} ReachedFrom(rounds: seq<Round>, x: MonitorId, step: nat, i: nat)
    requires Approaches(rounds, x, step) && Waits(rounds, x, i)
    requires Distance(rounds, x, i) < Progress(|rounds| - i, step)
    ensures ReachesWithin(rounds, x, i, step, Distance(rounds, x, i))
    decreases |rounds| - i
  {
    if x in rounds[i].due {
      B.AllowedUnlessCoolingDown(rounds[i].before[x].breaker, rounds[i].now);
      assert Reaches(rounds[i], x) && Progress(i - i, step) == 0;
    } else {
      ReachedFrom(rounds, x, step, i + 1);
      OneRoundMore(rounds, x, i, step, Distance(rounds, x, i + 1), Distance(rounds, x, i));
    }
  }

  lemma OneRoundMore(rounds: seq<Round>, x: MonitorId, i: nat, step: nat, k1: nat, k: nat)
    requires ReachesWithin(rounds, x, i + 1, step, k1) && k1 + step <= k
    ensures ReachesWithin(rounds, x, i, step, k)
  {
    var j :| i + 1 <= j < |rounds| && Progress(j - (i + 1), step) <= k1 && Reaches(rounds[j], x);
    assert Progress(j - i, step) <= k;
  }

  lemma ApproachingArrives(rounds: seq<Round>, x: MonitorId, step: nat)
    requires Approaches(rounds, x, step) && Waits(rounds, x, 0) && Distance(rounds, x, 0) < |rounds| * step
    ensures exists j :: 0 <= j < |rounds| && j * step <= Distance(rounds, x, 0) && Reaches(rounds[j], x)
  {
    ProgressIsProduct(|rounds|, step);
    ReachedFrom(rounds, x, step, 0);
    var j :| 0 <= j < |rounds| && Progress(j - 0, step) <= Distance(rounds, x, 0) && Reaches(rounds[j], x);
    ProgressIsProduct(j, step);
  }

  /**
   * Starvation-freedom: as long as fewer than a full batch is held, so that at least `step`
   * members move on, a due monitor with k others ahead of it reaches a batch after at most
   * k / step ticks, whichever way ties are broken.
   */
  lemma NotStarved(cfg: B.Config, rounds: seq<Round>, x: MonitorId, step: nat)
    requires AdvancingRun(cfg, rounds, x, step) && Waits(rounds, x, 0)
    requires Distance(rounds, x, 0) < |rounds| * step
    ensures exists j :: 0 <= j < |rounds| && j * step <= Distance(rounds, x, 0) && Reaches(rounds[j], x)
  {
    AdvancingApproaches(cfg, rounds, x, step);
    ApproachingArrives(rounds, x, step);
  }

  // ---------------------------------------------------------------- starvation

  /** These are all due, at least a batch of them, and strictly before x. */
  ghost predicate FullAhead(ms: Monitors, now: int, h: set<MonitorId>, x: MonitorId) {
    && x in ms && 500 <= |h|
    && forall id :: id in h ==> id in ms && IsDue(ms[id], now) && ms[id].nextCheckAt < ms[x].nextCheckAt
  }

  /** A full batch of more overdue monitors keeps x out of every answer to the due query. */
  lemma FullAheadExcludes(ms: Monitors, now: int, due: seq<MonitorId>, h: set<MonitorId>, x: MonitorId)
    requires FullAhead(ms, now, h, x) && DueBatch(ms, now, due)
    ensures x !in due
  {
    if x in due {
      forall id | id in h ensures id in Ids(due) - {x} {
        MoreOverdueComesAlong(ms, now, due, id, x);
        InBatch(due, id);
      }
      SubsetCount(h, Ids(due) - {x});
      InBatch(due, x);
      DistinctIdsCount(due);
    }
  }

  lemma MoreOverdueComesAlong(ms: Monitors, now: int, due: seq<MonitorId>, id: MonitorId, x: MonitorId)
    requires DueBatch(ms, now, due) && x in due && id in ms && IsDue(ms[id], now)
    requires x in ms && ms[id].nextCheckAt < ms[x].nextCheckAt
    ensures id in due
  {
  }

  /** Nobody in h is moved, and owners leave the schedules of h and of x alone. */
  ghost predicate HeldRun(cfg: B.Config, rounds: seq<Round>, h: set<MonitorId>, x: MonitorId) {
    && (forall j :: 0 <= j < |rounds| ==> Possible(rounds[j]) && h !! Moved(rounds[j]))
    && (forall j :: 0 <= j < |rounds| - 1 ==>
          && rounds[j].now <= rounds[j + 1].now
          && SchedulesKept(After(cfg, rounds[j]), rounds[j + 1].before, h + {x}))
  }

  ghost predicate SchedulesKept(ms: Monitors, ms': Monitors, ids: set<MonitorId>) {
    forall id :: id in ids && id in ms ==>
      id in ms' && ms'[id].nextCheckAt == ms[id].nextCheckAt
        && (ms'[id].active == Some(false) ==> ms[id].active == Some(false))
  }

  /**
   * Fewer than a full batch is the threshold.  While 500 due monitors ahead of x stay held,
   * by open breakers or by status writes that fail, x is in no batch at all, whatever the
   * database answers and however long it takes.
   */
  lemma {:induction false} HeldBatchStarves(cfg: B.Config, rounds: seq<Round>, h: set<MonitorId>, x: MonitorId, j: nat)
    requires j < |rounds| && HeldRun(cfg, rounds, h, x) && FullAhead(rounds[0].before, rounds[0].now, h, x)
    ensures FullAhead(rounds[j].before, rounds[j].now, h, x) && x !in rounds[j].due
  {
    if 0 < j {
      HeldBatchStarves(cfg, rounds, h, x, j - 1);
      HeldStaysAhead(cfg, rounds[j - 1], rounds[j], h, x);
    }
    FullAheadExcludes(rounds[j].before, rounds[j].now, rounds[j].due, h, x);
  }

  lemma HeldStaysAhead(cfg: B.Config, r: Round, next: Round, h: set<MonitorId>, x: MonitorId)
    requires Possible(r) && h !! Moved(r) && x !in r.due && FullAhead(r.before, r.now, h, x)
    requires r.now <= next.now && SchedulesKept(After(cfg, r), next.before, h + {x})
    ensures FullAhead(next.before, next.now, h, x)
  {
    InBatch(r.due, x);
    HeldStays(cfg, r, x);
    forall id | id in h
      ensures id in next.before && IsDue(next.before[id], next.now)
              && next.before[id].nextCheckAt < next.before[x].nextCheckAt
    {
      HeldStays(cfg, r, id);
    }
  }

  /**
   * Between the two lie ties: a full batch of open breakers that is as overdue as what lies
   * behind it may be selected again, unchanged, for as long as all of them cool down.
   */
  lemma OpenBreakersHoldTheBatch(cfg: B.Config, r: Round, later: int)
    requires Possible(r) && |r.due| == MAX_BATCH && r.now <= later
    requires forall id :: id in Ids(r.due) ==>
               B.IsCoolingDown(r.before[id].breaker, r.now) && B.IsCoolingDown(r.before[id].breaker, later)
    ensures After(cfg, r) == r.before
    ensures DueBatch(After(cfg, r), later, r.due) && forall id :: id in r.due ==> !Starts(r.(now := later), id)
  {
    forall i | 0 <= i < |r.due|
      ensures r.due[i] in Ids(r.due) && IsDue(r.before[r.due[i]], later)
      ensures !B.EvaluateBreaker(r.before[r.due[i]].breaker, r.now).allowed
      ensures !B.EvaluateBreaker(r.before[r.due[i]].breaker, later).allowed
    {
      assert r.due[i] in Ids(r.due);
      B.AllowedUnlessCoolingDown(r.before[r.due[i]].breaker, r.now);
      B.AllowedUnlessCoolingDown(r.before[r.due[i]].breaker, later);
    }
  }

  // ---------------------------------------------------------------- rate floor

  /** Consecutive ticks, each starting after every check of the one before has ended; edits keep x's schedule. */
  ghost predicate Paced(cfg: B.Config, rounds: seq<Round>, x: MonitorId) {
    && (forall j :: 0 <= j < |rounds| ==> Possible(rounds[j]) && x in rounds[j].before)
    && (forall j :: 0 <= j < |rounds| - 1 ==>
          && rounds[j].now <= rounds[j + 1].now
          && (x in rounds[j].due ==> rounds[j].checks[x].now <= rounds[j + 1].now)
          && rounds[j + 1].before[x].nextCheckAt == After(cfg, rounds[j])[x].nextCheckAt)
  }

  /** The earliest x can be due moves only when a check of x is recorded. */
  lemma {:induction false} ScheduleOnlyMovesForward(cfg: B.Config, rounds: seq<Round>, x: MonitorId, i: nat, j: nat)
    requires Paced(cfg, rounds, x) && i < j < |rounds|
    ensures After(cfg, rounds[i])[x].nextCheckAt <= rounds[j].before[x].nextCheckAt
            || exists k :: i < k < j && Starts(rounds[k], x) && After(cfg, rounds[i])[x].nextCheckAt <= rounds[k].now
  {
    if i + 1 < j {
      ScheduleOnlyMovesForward(cfg, rounds, x, i, j - 1);
      InBatch(rounds[j - 1].due, x);
      if After(cfg, rounds[i])[x].nextCheckAt <= rounds[j - 1].before[x].nextCheckAt && Starts(rounds[j - 1], x) {
        assert rounds[j - 1].before[x].nextCheckAt <= rounds[j - 1].now;
        assert i < j - 1 < j;
      }
    }
  }

  /**
   * Between the end of a recorded check and any later start of the same monitor lie at least
   * max(5, interval) seconds, whatever fails in every other round.
   */
  lemma RateFloor(cfg: B.Config, rounds: seq<Round>, x: MonitorId, i: nat, j: nat)
    requires Paced(cfg, rounds, x) && i < j < |rounds| && Records(rounds[i], x) && Starts(rounds[j], x)
    ensures x in rounds[i].checks && x in rounds[j].checks
            && rounds[i].checks[x].now + IntervalSeconds(rounds[i].before[x]) * 1000
               <= rounds[j].now <= rounds[j].checks[x].startedAt
  {
    InBatch(rounds[i].due, x);
    InBatch(rounds[j].due, x);
    ScheduleOnlyMovesForward(cfg, rounds, x, i, j);
    if k :| i < k < j && Starts(rounds[k], x) && After(cfg, rounds[i])[x].nextCheckAt <= rounds[k].now {
      NowIsMonotone(cfg, rounds, x, k, j);
    }
  }

  /**
   * Only recorded checks count.  After a check whose status write failed the monitor is as
   * before, so it is due and let through at every later reading, however soon, and every
   * batch that is not full starts it again.
   */
  lemma UnrecordedCheckRepeats(cfg: B.Config, r: Round, next: Round, x: MonitorId)
    requires Possible(r) && Starts(r, x) && !Records(r, x)
    requires r.now <= next.now && next.before == After(cfg, r) && DueBatch(next.before, next.now, next.due)
    ensures x in next.before && next.before[x] == r.before[x] && IsDue(next.before[x], next.now)
    ensures Starts(next, x) <==> x in next.due
    ensures |next.due| < MAX_BATCH ==> Starts(next, x)
  {
    HeldStays(cfg, r, x);
    InBatch(r.due, x);
  }

  lemma {:induction false} NowIsMonotone(cfg: B.Config, rounds: seq<Round>, x: MonitorId, i: nat, j: nat)
    requires Paced(cfg, rounds, x) && i <= j < |rounds|
    ensures rounds[i].now <= rounds[j].now
  {
    if i < j { NowIsMonotone(cfg, rounds, x, i, j - 1); }
  }

  /** The ticks, by index, at which a check of x was recorded. */
  function RecordIndices(rounds: seq<Round>, x: MonitorId): (s: seq<nat>)
    ensures forall i :: 0 <= i < |s| ==> s[i] < |rounds| && Records(rounds[s[i]], x)
    ensures forall i, j :: 0 <= i < j < |s| ==> s[i] < s[j]
    ensures forall k :: 0 <= k < |rounds| && Records(rounds[k], x) ==> k in s
  {
    if rounds == [] then []
    else
      var n := |rounds| - 1;
      RecordIndices(rounds[..n], x) + if Records(rounds[n], x) then [n] else []
  }

  /** When x's check was taken on by a worker. */
  function StartTime(r: Round, x: MonitorId): int {
    if x in r.checks then r.checks[x].startedAt else r.now
  }

  /** Any window of L seconds contains the starts of at most 1 + L / 5 recorded checks of one monitor. */
  lemma WindowBound(cfg: B.Config, rounds: seq<Round>, x: MonitorId, first: nat, count: nat, seconds: nat)
    requires Paced(cfg, rounds, x) && first + count <= |RecordIndices(rounds, x)| && 1 <= count
    requires var s := RecordIndices(rounds, x);
             StartTime(rounds[s[first + count - 1]], x) - StartTime(rounds[s[first]], x) <= seconds * 1000
    ensures count <= 1 + seconds / 5
  {
    RecordsSpread(cfg, rounds, x, first, count);
  }

  lemma {:induction false} RecordsSpread(cfg: B.Config, rounds: seq<Round>, x: MonitorId, first: nat, count: nat)
    requires Paced(cfg, rounds, x) && first + count <= |RecordIndices(rounds, x)| && 1 <= count
    ensures var s := RecordIndices(rounds, x);
            StartTime(rounds[s[first]], x) + (count - 1) * MIN_INTERVAL_SECONDS * 1000
            <= StartTime(rounds[s[first + count - 1]], x)
  {
    if 1 < count {
      var s := RecordIndices(rounds, x);
      RecordsSpread(cfg, rounds, x, first, count - 1);
      RateFloor(cfg, rounds, x, s[first + count - 2], s[first + count - 1]);
      InBatch(rounds[s[first + count - 2]].due, x);
    }
  }
}
