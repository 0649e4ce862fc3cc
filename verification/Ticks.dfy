/**
 * Sequences of ticks.  Between two ticks owners create, delete and re-configure monitors; a
 * tick is what `Scheduler.MonitorScheduler.Tick` does when it leads.  A tick is a run of
 * checks, and a round in the sense of `Fairness`, so what holds of runs and of rounds holds
 * of ticks.
 */
module Ticks {
  import opened Common
  import opened Incidents
  import opened Checks
  import opened Scheduler
  import opened Fairness
  import B = CircuitBreaker
  import Batches

  /** Owner activity since the tick before, and then a leader's tick. */
  datatype Tick = Tick(activity: seq<Op>, now: int, due: seq<MonitorId>, order: seq<MonitorId>,
                       checks: map<MonitorId, Check>)

  /** The stored state when the tick begins. */
  function Begin(cfg: B.Config, s: System, t: Tick): System {
    Checks.Run(cfg, s, t.activity)
  }

  ghost predicate Answers(s: System, t: Tick) {
    IsTick(s.monitors, t.now, t.due, t.order, t.checks)
  }

  /** A tick whose batch does not answer the due query does not happen. */
  ghost function TickEffect(cfg: B.Config, s: System, t: Tick): System {
    var begin := Begin(cfg, s, t);
    if Answers(begin, t) then BatchEffect(cfg, begin, t.order, t.checks) else begin
  }

  ghost function StateAfter(cfg: B.Config, s: System, ticks: seq<Tick>): System {
    if ticks == [] then s else TickEffect(cfg, StateAfter(cfg, s, ticks[..|ticks| - 1]), ticks[|ticks| - 1])
  }

  predicate OwnersOnly(ops: seq<Op>) {
    forall k :: 0 <= k < |ops| ==> !ops[k].Perform?
  }

  // ---------------------------------------------------------------- a tick is a run of checks

  function Performs(ids: seq<MonitorId>, checks: map<MonitorId, Check>): seq<Op>
    requires forall i :: 0 <= i < |ids| ==> ids[i] in checks
  {
    seq(|ids|, i requires 0 <= i < |ids| => Perform(ids[i], checks[ids[i]]))
  }

  lemma {:induction false} BatchIsRun(cfg: B.Config, s: System, ids: seq<MonitorId>, checks: map<MonitorId, Check>)
    requires forall i :: 0 <= i < |ids| ==> ids[i] in checks
    ensures BatchEffect(cfg, s, ids, checks) == Checks.Run(cfg, s, Performs(ids, checks))
  {
    if ids != [] {
      var n := |ids| - 1;
      BatchIsRun(cfg, s, ids[..n], checks);
      assert Performs(ids, checks)[..n] == Performs(ids[..n], checks);
    }
  }

  /** A fault-free batch, in any order, keeps the agreement, and any batch keeps the breakers. */
  lemma BatchKeepsInvariants(cfg: B.Config, s: System, ids: seq<MonitorId>, checks: map<MonitorId, Check>)
    requires forall i :: 0 <= i < |ids| ==> ids[i] in checks
    ensures BreakersInv(cfg, s) ==> BreakersInv(cfg, BatchEffect(cfg, s, ids, checks))
    ensures Agreement(s) && (forall i :: 0 <= i < |ids| ==> checks[ids[i]].fault == NoFault) ==>
              Agreement(BatchEffect(cfg, s, ids, checks))
  {
    BatchIsRun(cfg, s, ids, checks);
    if BreakersInv(cfg, s) { BreakersOverRuns(cfg, s, Performs(ids, checks)); }
    if Agreement(s) && (forall i :: 0 <= i < |ids| ==> checks[ids[i]].fault == NoFault) {
      AgreementOverRuns(cfg, s, Performs(ids, checks));
    }
  }

  /**
   * After every sequence of fault-free ticks with owner activity in between, a monitor is DOWN
   * iff it has exactly one ONGOING incident, and its announcements alternate.
   */
  lemma {:induction false} AgreementOverTicks(cfg: B.Config, s: System, ticks: seq<Tick>)
    requires Agreement(s)
    requires forall j :: 0 <= j < |ticks| ==> OwnersOnly(ticks[j].activity)
    requires forall j, id :: 0 <= j < |ticks| && id in ticks[j].checks ==> ticks[j].checks[id].fault == NoFault
    ensures var s' := StateAfter(cfg, s, ticks);
            && Agreement(s')
            && forall id :: id in s'.monitors ==>
                 OngoingCount(s'.docs, id) == if s'.monitors[id].flap.status == FlapDetection.DOWN then 1 else 0
  {
    if ticks != [] {
      var n := |ticks| - 1;
      AgreementOverTicks(cfg, s, ticks[..n]);
      var before, t := StateAfter(cfg, s, ticks[..n]), ticks[n];
      AgreementOverRuns(cfg, before, t.activity);
      if Answers(Begin(cfg, before, t), t) { BatchKeepsInvariants(cfg, Begin(cfg, before, t), t.order, t.checks); }
    }
    AgreementOverRuns(cfg, StateAfter(cfg, s, ticks), []);
  }

  /** After every sequence of ticks, faults and owner activity included, each breaker keeps its invariant. */
  lemma {:induction false} BreakersOverTicks(cfg: B.Config, s: System, ticks: seq<Tick>)
    requires BreakersInv(cfg, s)
    ensures BreakersInv(cfg, StateAfter(cfg, s, ticks))
  {
    if ticks != [] {
      var n := |ticks| - 1;
      BreakersOverTicks(cfg, s, ticks[..n]);
      var before, t := StateAfter(cfg, s, ticks[..n]), ticks[n];
      BreakersOverRuns(cfg, before, t.activity);
      if Answers(Begin(cfg, before, t), t) { BatchKeepsInvariants(cfg, Begin(cfg, before, t), t.order, t.checks); }
    }
  }

  // ---------------------------------------------------------------- ticks whose batches interleave

  /** A tick whose checks take their writes in this order, with owner activity in between. */
  datatype LiveTick = LiveTick(tick: Tick, steps: seq<Batches.Step>)

  function TasksOf(s: System, t: Tick): Batches.Tasks {
    map id | id in t.order && id in s.monitors && id in t.checks :: Batches.Task(s.monitors[id], t.checks[id])
  }

  function LaunchOf(s: System, t: Tick): Batches.Batch {
    Batches.Batch(s, map id | id in TasksOf(s, t) :: Batches.Started)
  }

  function BatchAfter(cfg: B.Config, s: System, l: LiveTick): Batches.Batch {
    Batches.Run(cfg, TasksOf(s, l.tick), LaunchOf(s, l.tick), l.steps)
  }

  ghost function LiveEffect(cfg: B.Config, s: System, l: LiveTick): System {
    var begin := Begin(cfg, s, l.tick);
    if Answers(begin, l.tick) then BatchAfter(cfg, begin, l).s else begin
  }

  ghost function LiveAfter(cfg: B.Config, s: System, ticks: seq<LiveTick>): System {
    if ticks == [] then s else LiveEffect(cfg, LiveAfter(cfg, s, ticks[..|ticks| - 1]), ticks[|ticks| - 1])
  }

  /** A tick awaits its whole pool. */
  ghost predicate Drains(cfg: B.Config, s: System, l: LiveTick) {
    Answers(Begin(cfg, s, l.tick), l.tick) ==> Batches.AllFinished(BatchAfter(cfg, Begin(cfg, s, l.tick), l))
  }

  lemma TasksAreLaunched(s: System, t: Tick)
    requires Answers(s, t)
    ensures Batches.Launched(s, TasksOf(s, t), LaunchOf(s, t)) && TasksOf(s, t).Keys == Ids(t.order)
  {
    SelectedSpec(s.monitors, t.due, t.now, {});
    InIds(t.order);
  }

  ghost predicate IsFaultless(t: Tick) {
    forall id :: id in t.checks ==> t.checks[id].fault == NoFault
  }

  lemma LiveTickKeepsAgreement(cfg: B.Config, s: System, l: LiveTick)
    requires Agreement(s) && OwnersOnly(l.tick.activity) && IsFaultless(l.tick) && Drains(cfg, s, l)
    ensures Agreement(LiveEffect(cfg, s, l))
  {
    AgreementOverRuns(cfg, s, l.tick.activity);
    var begin := Begin(cfg, s, l.tick);
    if Answers(begin, l.tick) {
      TasksAreLaunched(begin, l.tick);
      Batches.InterleavedAgreement(cfg, begin, TasksOf(begin, l.tick), LaunchOf(begin, l.tick), l.steps);
    }
  }

  /**
   * The same for batches as the pool runs them: after every sequence of fault-free ticks whose
   * checks interleave with each other and with owner activity, during and between the ticks,
   * status, incidents and announcements agree for every monitor.
   */
  lemma {:induction false} AgreementOverLiveTicks(cfg: B.Config, s: System, ticks: seq<LiveTick>)
    requires Agreement(s)
    requires forall j :: 0 <= j < |ticks| ==> OwnersOnly(ticks[j].tick.activity) && IsFaultless(ticks[j].tick)
    requires forall j :: 0 <= j < |ticks| ==> Drains(cfg, LiveAfter(cfg, s, ticks[..j]), ticks[j])
    ensures Agreement(LiveAfter(cfg, s, ticks))
  {
    if ticks != [] {
      var n := |ticks| - 1;
      forall j | 0 <= j < n ensures Drains(cfg, LiveAfter(cfg, s, ticks[..n][..j]), ticks[..n][j]) {
        assert ticks[..n][..j] == ticks[..j];
      }
      AgreementOverLiveTicks(cfg, s, ticks[..n]);
      LiveTickKeepsAgreement(cfg, LiveAfter(cfg, s, ticks[..n]), ticks[n]);
    }
  }

  /** And the breakers keep their invariant, faults and unfinished checks included. */
  lemma {:induction false} BreakersOverLiveTicks(cfg: B.Config, s: System, ticks: seq<LiveTick>)
    requires BreakersInv(cfg, s)
    ensures BreakersInv(cfg, LiveAfter(cfg, s, ticks))
  {
    if ticks != [] {
      var n := |ticks| - 1;
      BreakersOverLiveTicks(cfg, s, ticks[..n]);
      var before, l := LiveAfter(cfg, s, ticks[..n]), ticks[n];
      BreakersOverRuns(cfg, before, l.tick.activity);
      var begin := Begin(cfg, before, l.tick);
      if Answers(begin, l.tick) {
        TasksAreLaunched(begin, l.tick);
        Batches.InterleavedBreakers(cfg, begin, TasksOf(begin, l.tick), LaunchOf(begin, l.tick), l.steps);
      }
    }
  }

  /** A live tick during which owners rest leaves the monitors of the tick that checks one after another. */
  lemma LiveTickMonitors(cfg: B.Config, s: System, l: LiveTick)
    requires Drains(cfg, s, l) && forall k :: 0 <= k < |l.steps| ==> l.steps[k].Write?
    ensures LiveEffect(cfg, s, l).monitors == TickEffect(cfg, s, l.tick).monitors
  {
    var begin, t := Begin(cfg, s, l.tick), l.tick;
    if Answers(begin, t) {
      TasksAreLaunched(begin, t);
      Batches.InterleavedMonitors(cfg, begin, TasksOf(begin, t), LaunchOf(begin, t), l.steps);
      SequentialMonitors(cfg, begin, t);
    }
  }

  /** What checking one after another leaves, in terms of the tasks. */
  lemma SequentialMonitors(cfg: B.Config, s: System, t: Tick)
    requires Answers(s, t)
    ensures BatchEffect(cfg, s, t.order, t.checks).monitors
            == BatchMonitors(cfg, s.monitors, TasksOf(s, t).Keys, Batches.ChecksOf(TasksOf(s, t)))
  {
    BatchPointwise(cfg, s, t.order, t.checks);
    TaskChecks(s, t);
    SameChecks(cfg, s.monitors, TasksOf(s, t).Keys, t.checks, Batches.ChecksOf(TasksOf(s, t)));
  }

  lemma TaskChecks(s: System, t: Tick)
    requires Answers(s, t)
    ensures TasksOf(s, t).Keys == Ids(t.order) <= t.checks.Keys
    ensures forall id :: id in TasksOf(s, t) ==> Batches.ChecksOf(TasksOf(s, t))[id] == t.checks[id]
  {
    TasksAreLaunched(s, t);
  }

  lemma SameChecks(cfg: B.Config, ms: Monitors, ids: set<MonitorId>, checks: map<MonitorId, Check>,
                   checks': map<MonitorId, Check>)
    requires ids <= checks.Keys && ids <= checks'.Keys && forall id :: id in ids ==> checks'[id] == checks[id]
    ensures BatchMonitors(cfg, ms, ids, checks') == BatchMonitors(cfg, ms, ids, checks)
  {
  }

  // ---------------------------------------------------------------- a tick is a round

  ghost function RoundAt(cfg: B.Config, s: System, ticks: seq<Tick>, j: nat): Round
    requires j < |ticks|
  {
    var t := ticks[j];
    Round(Begin(cfg, StateAfter(cfg, s, ticks[..j]), t).monitors, t.now, t.due, t.checks)
  }

  ghost function Rounds(cfg: B.Config, s: System, ticks: seq<Tick>): seq<Round> {
    seq(|ticks|, j requires 0 <= j < |ticks| => RoundAt(cfg, s, ticks, j))
  }

  /** Checking all due monitors is checking the started ones, because a skipped check changes nothing. */
  lemma TickIsRound(cfg: B.Config, s: System, t: Tick)
    requires Answers(s, t)
    ensures Ids(t.due) <= t.checks.Keys
    ensures BatchEffect(cfg, s, t.order, t.checks).monitors == After(cfg, Round(s.monitors, t.now, t.due, t.checks))
    ensures forall id :: id in t.order <==> Starts(Round(s.monitors, t.now, t.due, t.checks), id)
  {
    SelectedSpec(s.monitors, t.due, t.now, {});
    BatchPointwise(cfg, s, t.order, t.checks);
    InIds(t.order);
    InIds(t.due);
  }

  /**
   * Ticks on a clock that never goes back: every batch answers the due query, every check
   * starts and ends between its own tick and the next, and nothing was checked in the future.
   */
  ghost predicate Forward(cfg: B.Config, s: System, ticks: seq<Tick>) {
    && (forall j :: 0 <= j < |ticks| ==>
          OwnersOnly(ticks[j].activity) && Answers(Begin(cfg, StateAfter(cfg, s, ticks[..j]), ticks[j]), ticks[j]))
    && (forall j, id :: 0 <= j < |ticks| && id in ticks[j].due ==>
          id in ticks[j].checks && ticks[j].now <= ticks[j].checks[id].startedAt <= ticks[j].checks[id].now)
    && (forall i, j :: 0 <= i < j < |ticks| ==> ticks[i].now <= ticks[j].now)
    && (forall i, j, id :: 0 <= i < j < |ticks| && id in ticks[i].due && id in ticks[i].checks ==>
          ticks[i].checks[id].now <= ticks[j].now)
    && (forall j, id :: 0 <= j < |ticks| && id in s.monitors ==> IsCheckedBy(s.monitors[id], ticks[j].now))
  }

  predicate IsCheckedBy(m: Monitor, now: int) {
    m.lastChecked.Some? ==> m.lastChecked.value <= now
  }

  ghost predicate AllCheckedBy(ms: Monitors, now: int) {
    forall id :: id in ms ==> IsCheckedBy(ms[id], now)
  }

  /** Owners cannot touch the schedule or the history of a monitor that stays. */
  lemma {:induction false} OwnersKeepSchedule(cfg: B.Config, s: System, ops: seq<Op>, id: MonitorId)
    requires OwnersOnly(ops) && id in s.monitors && forall k :: 0 <= k < |ops| ==> ops[k] != Delete(id)
    ensures var s' := Checks.Run(cfg, s, ops);
            && id in s'.monitors && s'.monitors[id].nextCheckAt == s.monitors[id].nextCheckAt
            && s'.monitors[id].lastChecked == s.monitors[id].lastChecked
  {
    if ops != [] { OwnersKeepSchedule(cfg, s, ops[..|ops| - 1], id); }
  }

  lemma {:induction false} OwnersCheckNothing(cfg: B.Config, s: System, ops: seq<Op>, now: int)
    requires OwnersOnly(ops) && AllCheckedBy(s.monitors, now)
    ensures AllCheckedBy(Checks.Run(cfg, s, ops).monitors, now)
  {
    if ops != [] {
      var n := |ops| - 1;
      OwnersCheckNothing(cfg, s, ops[..n], now);
      assert !ops[n].Perform?;
    }
  }

  /** The state a tick leaves behind is the one its round leaves behind. */
  lemma StateIsAfter(cfg: B.Config, s: System, ticks: seq<Tick>, j: nat)
    requires Forward(cfg, s, ticks) && j < |ticks|
    ensures Ids(ticks[j].due) <= ticks[j].checks.Keys
    ensures StateAfter(cfg, s, ticks[..j + 1]).monitors == After(cfg, RoundAt(cfg, s, ticks, j))
  {
    assert ticks[..j + 1][..j] == ticks[..j];
    TickIsRound(cfg, Begin(cfg, StateAfter(cfg, s, ticks[..j]), ticks[j]), ticks[j]);
  }

  /** The checks of a tick are in the past of every later tick. */
  lemma CheckedBefore(cfg: B.Config, s: System, ticks: seq<Tick>, j: nat, later: nat)
    requires Forward(cfg, s, ticks) && j < later < |ticks| && Possible(RoundAt(cfg, s, ticks, j))
    ensures AllCheckedBy(StateAfter(cfg, s, ticks[..j + 1]).monitors, ticks[later].now)
  {
    StateIsAfter(cfg, s, ticks, j);
    InIds(ticks[j].due);
    NoFutureChecks(cfg, RoundAt(cfg, s, ticks, j), ticks[later].now);
  }

  lemma {:induction false} NothingInTheFuture(cfg: B.Config, s: System, ticks: seq<Tick>, j: nat, later: nat)
    requires Forward(cfg, s, ticks) && j <= later < |ticks|
    ensures AllCheckedBy(RoundAt(cfg, s, ticks, j).before, ticks[later].now)
    decreases j, 0
  {
    if j == 0 {
      assert ticks[..0] == [];
      OwnersCheckNothing(cfg, s, ticks[0].activity, ticks[later].now);
    } else {
      RoundIsPossible(cfg, s, ticks, j - 1);
      CheckedBefore(cfg, s, ticks, j - 1, later);
      OwnersCheckNothing(cfg, StateAfter(cfg, s, ticks[..j]), ticks[j].activity, ticks[later].now);
    }
  }

  lemma {:induction false} RoundIsPossible(cfg: B.Config, s: System, ticks: seq<Tick>, j: nat)
    requires Forward(cfg, s, ticks) && j < |ticks|
    ensures Possible(RoundAt(cfg, s, ticks, j))
    decreases j, 1
  {
    NothingInTheFuture(cfg, s, ticks, j, j);
    InIds(ticks[j].due);
    assert Answers(Begin(cfg, StateAfter(cfg, s, ticks[..j]), ticks[j]), ticks[j]);
  }

  // ---------------------------------------------------------------- fairness of ticks

  /**
   * Owner activity that puts nothing new ahead of x: nothing is resumed, x is neither deleted nor
   * paused, and new monitors fall due after it.
   */
  predicate IsGentle(s: System, op: Op, x: MonitorId) {
    match op
    case Perform(_, _) => false
    case Create(_, _, _, _, _, now) => x in s.monitors && s.monitors[x].nextCheckAt < now
    case Delete(id) => id != x
    case EditSettings(id, active, _, _, _) =>
      && (id == x ==> active != Some(false))
      && (id in s.monitors && s.monitors[id].active == Some(false) ==> active == Some(false))
  }

  ghost predicate GentleActivity(cfg: B.Config, s: System, ops: seq<Op>, x: MonitorId) {
    forall k :: 0 <= k < |ops| ==> IsGentle(Checks.Run(cfg, s, ops[..k]), ops[k], x)
  }

  lemma {:induction false} GentleIsQuiet(cfg: B.Config, s: System, ops: seq<Op>, x: MonitorId)
    requires x in s.monitors && s.monitors[x].active != Some(false) && GentleActivity(cfg, s, ops, x)
    ensures Quiet(s.monitors, Checks.Run(cfg, s, ops).monitors, x)
  {
    if ops != [] {
      var n := |ops| - 1;
      forall k | 0 <= k < n ensures IsGentle(Checks.Run(cfg, s, ops[..n][..k]), ops[..n][k], x) {
        assert ops[..n][..k] == ops[..k];
      }
      GentleIsQuiet(cfg, s, ops[..n], x);
      var mid := Checks.Run(cfg, s, ops[..n]);
      GentleStep(cfg, mid, ops[n], x);
    }
  }

  lemma GentleStep(cfg: B.Config, s: System, op: Op, x: MonitorId)
    requires x in s.monitors && s.monitors[x].active != Some(false) && IsGentle(s, op, x)
    ensures Quiet(s.monitors, Checks.Step(cfg, s, op).monitors, x)
  {
    OwnerActivityIsQuiet(s.monitors, Checks.Step(cfg, s, op).monitors, x);
  }

  /**
   * Ticks whose batches hold at most MAX_BATCH - step members, by open breakers or by status
   * writes that fail, with owner activity that is gentle to x.
   */
  ghost predicate Advancing(cfg: B.Config, s: System, ticks: seq<Tick>, x: MonitorId, step: nat) {
    && Forward(cfg, s, ticks)
    && (forall j :: 0 <= j < |ticks| ==> |Held(RoundAt(cfg, s, ticks, j))| + step <= MAX_BATCH)
    && (forall j :: 0 < j < |ticks| ==> GentleActivity(cfg, StateAfter(cfg, s, ticks[..j]), ticks[j].activity, x))
  }

  lemma AdvancingTicksAdvance(cfg: B.Config, s: System, ticks: seq<Tick>, x: MonitorId, step: nat)
    requires Advancing(cfg, s, ticks, x, step) && ticks != []
    requires x in RoundAt(cfg, s, ticks, 0).before && RoundAt(cfg, s, ticks, 0).before[x].active != Some(false)
    ensures AdvancingRun(cfg, Rounds(cfg, s, ticks), x, step)
  {
    var rounds := Rounds(cfg, s, ticks);
    forall j | 0 <= j < |rounds| ensures Possible(rounds[j]) && |Held(rounds[j])| + step <= MAX_BATCH {
      RoundIsPossible(cfg, s, ticks, j);
    }
    forall j | 0 <= j < |rounds| - 1
      ensures rounds[j].now <= rounds[j + 1].now && Quiet(After(cfg, rounds[j]), rounds[j + 1].before, x)
    {
      QuietAfter(cfg, s, ticks, x, step, j);
    }
  }

  lemma QuietAfter(cfg: B.Config, s: System, ticks: seq<Tick>, x: MonitorId, step: nat, j: nat)
    requires Advancing(cfg, s, ticks, x, step) && j + 1 < |ticks|
    requires x in RoundAt(cfg, s, ticks, 0).before && RoundAt(cfg, s, ticks, 0).before[x].active != Some(false)
    ensures Ids(Rounds(cfg, s, ticks)[j].due) <= Rounds(cfg, s, ticks)[j].checks.Keys
    ensures ticks[j].now <= ticks[j + 1].now
    ensures Quiet(After(cfg, Rounds(cfg, s, ticks)[j]), Rounds(cfg, s, ticks)[j + 1].before, x)
  {
    StaysActive(cfg, s, ticks, x, step, j);
  }

  /** x stays stored and active, and from each tick to the next nothing new gets ahead of it. */
  lemma {:induction false} StaysActive(cfg: B.Config, s: System, ticks: seq<Tick>, x: MonitorId, step: nat, j: nat)
    requires Advancing(cfg, s, ticks, x, step) && j + 1 < |ticks|
    requires x in RoundAt(cfg, s, ticks, 0).before && RoundAt(cfg, s, ticks, 0).before[x].active != Some(false)
    ensures Ids(ticks[j].due) <= ticks[j].checks.Keys
    ensures var next := RoundAt(cfg, s, ticks, j + 1).before;
            && Quiet(After(cfg, RoundAt(cfg, s, ticks, j)), next, x)
            && x in next && next[x].active != Some(false)
  {
    if 0 < j { StaysActive(cfg, s, ticks, x, step, j - 1); }
    ActiveStep(cfg, s, ticks, x, j);
  }

  lemma ActiveStep(cfg: B.Config, s: System, ticks: seq<Tick>, x: MonitorId, j: nat)
    requires Forward(cfg, s, ticks) && j + 1 < |ticks|
    requires GentleActivity(cfg, StateAfter(cfg, s, ticks[..j + 1]), ticks[j + 1].activity, x)
    requires x in RoundAt(cfg, s, ticks, j).before && RoundAt(cfg, s, ticks, j).before[x].active != Some(false)
    ensures Ids(ticks[j].due) <= ticks[j].checks.Keys
    ensures var next := RoundAt(cfg, s, ticks, j + 1).before;
            && Quiet(After(cfg, RoundAt(cfg, s, ticks, j)), next, x)
            && x in next && next[x].active != Some(false)
  {
    StateIsAfter(cfg, s, ticks, j);
    GentleIsQuiet(cfg, StateAfter(cfg, s, ticks[..j + 1]), ticks[j + 1].activity, x);
  }

  /** x is in the batch of tick j, and its check is performed if its own breaker allows it. */
  ghost predicate IsServed(cfg: B.Config, s: System, ticks: seq<Tick>, x: MonitorId, j: nat)
    requires j < |ticks|
  {
    var before := RoundAt(cfg, s, ticks, j).before;
    && x in ticks[j].due && x in before
    && (!B.IsCoolingDown(before[x].breaker, ticks[j].now) ==> x in ticks[j].order)
  }

  /**
   * Starvation-freedom of the scheduler's ticks: while every batch has at least `step` members
   * that move on, and owners are gentle, a monitor that is due with k others ahead of it is
   * served after at most k / step ticks, whichever way the database breaks ties.
   */
  lemma NotStarvedOverTicks(cfg: B.Config, s: System, ticks: seq<Tick>, x: MonitorId, step: nat)
    requires ticks != [] && Advancing(cfg, s, ticks, x, step)
    requires var first := RoundAt(cfg, s, ticks, 0);
             x in first.before && IsDue(first.before[x], first.now) && |Ahead(first.before, x)| < |ticks| * step
    ensures exists j :: 0 <= j < |ticks| && j * step <= |Ahead(RoundAt(cfg, s, ticks, 0).before, x)|
                        && IsServed(cfg, s, ticks, x, j)
  {
    AdvancingTicksAdvance(cfg, s, ticks, x, step);
    var rounds := Rounds(cfg, s, ticks);
    assert rounds[0] == RoundAt(cfg, s, ticks, 0);
    NotStarved(cfg, rounds, x, step);
    var j :| 0 <= j < |rounds| && j * step <= Distance(rounds, x, 0) && Reaches(rounds[j], x);
    StartsArePerformed(cfg, s, ticks, x, j);
    assert IsServed(cfg, s, ticks, x, j);
  }

  /** The operation neither deletes nor pauses the monitor. */
  predicate LeavesInPlace(op: Op, id: MonitorId) {
    op != Delete(id) && (op.EditSettings? && op.id == id ==> op.active != Some(false))
  }

  lemma {:induction false} OwnersLeaveInPlace(cfg: B.Config, s: System, ops: seq<Op>, id: MonitorId)
    requires OwnersOnly(ops) && id in s.monitors && forall k :: 0 <= k < |ops| ==> LeavesInPlace(ops[k], id)
    ensures var s' := Checks.Run(cfg, s, ops);
            && id in s'.monitors && s'.monitors[id].nextCheckAt == s.monitors[id].nextCheckAt
            && (s'.monitors[id].active == Some(false) ==> s.monitors[id].active == Some(false))
  {
    if ops != [] { OwnersLeaveInPlace(cfg, s, ops[..|ops| - 1], id); }
  }

  /** No check of h is recorded, and owners leave h and x in place. */
  ghost predicate Holding(cfg: B.Config, s: System, ticks: seq<Tick>, h: set<MonitorId>, x: MonitorId) {
    && Forward(cfg, s, ticks)
    && (forall j :: 0 <= j < |ticks| ==> h !! Moved(RoundAt(cfg, s, ticks, j)))
    && (forall j, k, id :: 0 < j < |ticks| && 0 <= k < |ticks[j].activity| && id in h + {x} ==>
          LeavesInPlace(ticks[j].activity[k], id))
  }

  lemma HoldingTicksHold(cfg: B.Config, s: System, ticks: seq<Tick>, h: set<MonitorId>, x: MonitorId)
    requires Holding(cfg, s, ticks, h, x)
    ensures HeldRun(cfg, Rounds(cfg, s, ticks), h, x)
  {
    var rounds := Rounds(cfg, s, ticks);
    forall j | 0 <= j < |rounds| ensures Possible(rounds[j]) && h !! Moved(rounds[j]) {
      RoundIsPossible(cfg, s, ticks, j);
    }
    forall j | 0 <= j < |rounds| - 1
      ensures rounds[j].now <= rounds[j + 1].now
      ensures SchedulesKept(After(cfg, rounds[j]), rounds[j + 1].before, h + {x})
    {
      HoldingKeepsSchedules(cfg, s, ticks, h, x, j);
    }
  }

  lemma HoldingKeepsSchedules(cfg: B.Config, s: System, ticks: seq<Tick>, h: set<MonitorId>, x: MonitorId, j: nat)
    requires Holding(cfg, s, ticks, h, x) && j + 1 < |ticks|
    ensures Ids(ticks[j].due) <= ticks[j].checks.Keys
    ensures SchedulesKept(After(cfg, RoundAt(cfg, s, ticks, j)), RoundAt(cfg, s, ticks, j + 1).before, h + {x})
  {
    StateIsAfter(cfg, s, ticks, j);
    var after := StateAfter(cfg, s, ticks[..j + 1]);
    forall id | id in h + {x} && id in after.monitors
      ensures var next := RoundAt(cfg, s, ticks, j + 1).before;
              && id in next && next[id].nextCheckAt == after.monitors[id].nextCheckAt
              && (next[id].active == Some(false) ==> after.monitors[id].active == Some(false))
    {
      OwnersLeaveInPlace(cfg, after, ticks[j + 1].activity, id);
    }
  }

  /**
   * Fewer than 500 held is exact: while a full batch of more overdue monitors stays held, x
   * is in no batch of any tick, whatever the database answers.
   */
  lemma StarvedOverTicks(cfg: B.Config, s: System, ticks: seq<Tick>, h: set<MonitorId>, x: MonitorId, j: nat)
    requires j < |ticks| && Holding(cfg, s, ticks, h, x)
    requires FullAhead(RoundAt(cfg, s, ticks, 0).before, ticks[0].now, h, x)
    ensures x !in ticks[j].due && x !in ticks[j].order
  {
    HoldingTicksHold(cfg, s, ticks, h, x);
    HeldBatchStarves(cfg, Rounds(cfg, s, ticks), h, x, j);
    StartsArePerformed(cfg, s, ticks, x, j);
  }

  // ---------------------------------------------------------------- rate of ticks

  /** x is stored when the first tick begins and never deleted; everything else is arbitrary. */
  ghost predicate Tracked(cfg: B.Config, s: System, ticks: seq<Tick>, x: MonitorId) {
    && Forward(cfg, s, ticks)
    && (ticks != [] ==> x in RoundAt(cfg, s, ticks, 0).before)
    && (forall j, k :: 0 < j < |ticks| && 0 <= k < |ticks[j].activity| ==> ticks[j].activity[k] != Delete(x))
  }

  lemma {:induction false} ScheduleKept(cfg: B.Config, s: System, ticks: seq<Tick>, x: MonitorId, j: nat)
    requires Tracked(cfg, s, ticks, x) && j + 1 < |ticks|
    ensures Ids(ticks[j].due) <= ticks[j].checks.Keys
    ensures var after, next := After(cfg, RoundAt(cfg, s, ticks, j)), RoundAt(cfg, s, ticks, j + 1).before;
            x in after && x in next && next[x].nextCheckAt == after[x].nextCheckAt
  {
    if 0 < j { ScheduleKept(cfg, s, ticks, x, j - 1); }
    StateIsAfter(cfg, s, ticks, j);
    OwnersKeepSchedule(cfg, StateAfter(cfg, s, ticks[..j + 1]), ticks[j + 1].activity, x);
  }

  lemma RoundTracked(cfg: B.Config, s: System, ticks: seq<Tick>, x: MonitorId, j: nat)
    requires Tracked(cfg, s, ticks, x) && j < |ticks|
    ensures Possible(RoundAt(cfg, s, ticks, j)) && x in RoundAt(cfg, s, ticks, j).before
    ensures x in Ids(ticks[j].due) ==>
              && x in ticks[j].checks
              && (j + 1 < |ticks| ==> ticks[j].checks[x].now <= ticks[j + 1].now)
  {
    RoundIsPossible(cfg, s, ticks, j);
    InIds(ticks[j].due);
    if 0 < j { ScheduleKept(cfg, s, ticks, x, j - 1); }
  }

  lemma TrackedIsPaced(cfg: B.Config, s: System, ticks: seq<Tick>, x: MonitorId)
    requires Tracked(cfg, s, ticks, x)
    ensures Paced(cfg, Rounds(cfg, s, ticks), x)
  {
    var rounds := Rounds(cfg, s, ticks);
    forall j | 0 <= j < |rounds|
      ensures Possible(rounds[j]) && x in rounds[j].before
    {
      RoundTracked(cfg, s, ticks, x, j);
    }
    forall j | 0 <= j < |rounds| - 1
      ensures && rounds[j].now <= rounds[j + 1].now
              && (x in rounds[j].due ==> rounds[j].checks[x].now <= rounds[j + 1].now)
              && rounds[j + 1].before[x].nextCheckAt == After(cfg, rounds[j])[x].nextCheckAt
    {
      RoundTracked(cfg, s, ticks, x, j);
      InIds(ticks[j].due);
      ScheduleKept(cfg, s, ticks, x, j);
    }
  }

  /** A round starts exactly the checks its tick performs. */
  lemma StartsArePerformed(cfg: B.Config, s: System, ticks: seq<Tick>, x: MonitorId, j: nat)
    requires Forward(cfg, s, ticks) && j < |ticks|
    ensures Starts(Rounds(cfg, s, ticks)[j], x) <==> x in ticks[j].order
  {
    TickIsRound(cfg, Begin(cfg, StateAfter(cfg, s, ticks[..j]), ticks[j]), ticks[j]);
  }

  /** The tick performs a check of x and its status write succeeds. */
  predicate IsRecorded(t: Tick, x: MonitorId) {
    x in t.order && x in t.checks && t.checks[x].fault != StatusWriteFails
  }

  /**
   * Between the end of a recorded check and the start of any later one of the same monitor lie
   * at least max(5, interval) seconds, whatever fails elsewhere and whatever the owner does
   * short of deleting the monitor.
   */
  lemma RateFloorOverTicks(cfg: B.Config, s: System, ticks: seq<Tick>, x: MonitorId, i: nat, j: nat)
    requires Tracked(cfg, s, ticks, x) && i < j < |ticks| && IsRecorded(ticks[i], x) && x in ticks[j].order
    ensures x in RoundAt(cfg, s, ticks, i).before && x in ticks[j].checks
            && ticks[i].checks[x].now + IntervalSeconds(RoundAt(cfg, s, ticks, i).before[x]) * 1000
               <= ticks[j].checks[x].startedAt
  {
    TrackedIsPaced(cfg, s, ticks, x);
    StartsArePerformed(cfg, s, ticks, x, i);
    StartsArePerformed(cfg, s, ticks, x, j);
    RateFloor(cfg, Rounds(cfg, s, ticks), x, i, j);
  }

  /**
   * Only for recorded checks: when a status write fails, the next tick performs the check
   * again, however soon it comes, unless its batch is full or the owner intervenes.
   */
  lemma UnrecordedRepeatsOverTicks(cfg: B.Config, s: System, ticks: seq<Tick>, x: MonitorId, j: nat)
    requires Forward(cfg, s, ticks) && j + 1 < |ticks| && x in ticks[j].order && !IsRecorded(ticks[j], x)
    requires ticks[j + 1].activity == [] && |ticks[j + 1].due| < MAX_BATCH
    ensures x in ticks[j + 1].order
  {
    var r, next := RoundAt(cfg, s, ticks, j), RoundAt(cfg, s, ticks, j + 1);
    RoundIsPossible(cfg, s, ticks, j);
    RoundIsPossible(cfg, s, ticks, j + 1);
    StateIsAfter(cfg, s, ticks, j);
    StartsArePerformed(cfg, s, ticks, x, j);
    StartsArePerformed(cfg, s, ticks, x, j + 1);
    UnrecordedCheckRepeats(cfg, r, next, x);
  }

  /** When tick k's check of x was taken on by a worker. */
  function StartedAt(ticks: seq<Tick>, x: MonitorId, k: nat): int {
    if k < |ticks| && x in ticks[k].checks then ticks[k].checks[x].startedAt else 0
  }

  /** Ticks, in order, each of which recorded a check of x. */
  ghost predicate AreRecorded(ticks: seq<Tick>, x: MonitorId, at: seq<nat>) {
    && (forall i :: 0 <= i < |at| ==> at[i] < |ticks| && IsRecorded(ticks[at[i]], x))
    && (forall i, j :: 0 <= i < j < |at| ==> at[i] < at[j])
  }

  function StartTimes(ticks: seq<Tick>, x: MonitorId, at: seq<nat>): (times: seq<int>)
    ensures |times| == |at|
  {
    seq(|at|, i requires 0 <= i < |at| => StartedAt(ticks, x, at[i]))
  }

  ghost predicate AreApart(times: seq<int>) {
    forall i :: 0 <= i < |times| - 1 ==> times[i] + MIN_INTERVAL_SECONDS * 1000 <= times[i + 1]
  }

  lemma RecordedAreApart(cfg: B.Config, s: System, ticks: seq<Tick>, x: MonitorId, at: seq<nat>)
    requires Tracked(cfg, s, ticks, x) && AreRecorded(ticks, x, at)
    ensures AreApart(StartTimes(ticks, x, at))
  {
    forall i | 0 <= i < |at| - 1
      ensures StartedAt(ticks, x, at[i]) + MIN_INTERVAL_SECONDS * 1000 <= StartedAt(ticks, x, at[i + 1])
    {
      ApartByFloor(cfg, s, ticks, x, at[i], at[i + 1]);
    }
  }

  /** Events that keep their distance spread out. */
  lemma {:induction false} Spread(times: seq<int>, n: nat)
    requires n < |times| && AreApart(times)
    ensures times[0] + n * (MIN_INTERVAL_SECONDS * 1000) <= times[n]
  {
    if 0 < n {
      Spread(times, n - 1);
      assert times[n - 1] + MIN_INTERVAL_SECONDS * 1000 <= times[n - 1 + 1];
    }
  }

  lemma SpreadBound(times: seq<int>, seconds: nat)
    requires times != [] && AreApart(times) && times[|times| - 1] - times[0] <= seconds * 1000
    ensures |times| <= 1 + seconds / MIN_INTERVAL_SECONDS
  {
    Spread(times, |times| - 1);
  }

  /** A window of L seconds contains the starts of at most 1 + L / 5 recorded checks of one monitor. */
  lemma WindowBoundOverTicks(cfg: B.Config, s: System, ticks: seq<Tick>, x: MonitorId, at: seq<nat>, seconds: nat)
    requires Tracked(cfg, s, ticks, x) && at != [] && AreRecorded(ticks, x, at)
    requires StartTimes(ticks, x, at)[|at| - 1] - StartTimes(ticks, x, at)[0] <= seconds * 1000
    ensures |at| <= 1 + seconds / 5
  {
    RecordedAreApart(cfg, s, ticks, x, at);
    SpreadBound(StartTimes(ticks, x, at), seconds);
  }

  lemma ApartByFloor(cfg: B.Config, s: System, ticks: seq<Tick>, x: MonitorId, i: nat, j: nat)
    requires Tracked(cfg, s, ticks, x) && i < j < |ticks| && IsRecorded(ticks[i], x) && x in ticks[j].order
    ensures StartedAt(ticks, x, i) + MIN_INTERVAL_SECONDS * 1000 <= StartedAt(ticks, x, j)
  {
    RateFloorOverTicks(cfg, s, ticks, x, i, j);
    EndsAfterStart(cfg, s, ticks, x, i);
  }

  lemma EndsAfterStart(cfg: B.Config, s: System, ticks: seq<Tick>, x: MonitorId, j: nat)
    requires Forward(cfg, s, ticks) && j < |ticks| && x in ticks[j].order
    ensures x in ticks[j].checks && ticks[j].checks[x].startedAt <= ticks[j].checks[x].now
  {
    StartsArePerformed(cfg, s, ticks, x, j);
    assert x in ticks[j].due;
  }
}
