/**
 * The scheduler: due selection, the tick with its overlap and breaker gates, and the
 * sequence of writes of one check, as a class over the database it updates.
 *
 * Probe results, clock readings and injected faults arrive as parameters (`Checks.Check`).
 * The methods run the checks of a batch one after another, in any order; `Batches` lets them
 * interleave.
 */
module Scheduler {
  import opened Common
  import opened FlapDetection
  import opened Incidents
  import opened Checks
  import B = CircuitBreaker
  import L = Lease

  const MAX_BATCH := 500

  /** Active, and either scheduled at or before now or last checked in the future. */
  predicate IsDue(m: Monitor, now: int) {
    m.active != Some(false) && (m.nextCheckAt <= now || (m.lastChecked.Some? && now < m.lastChecked.value))
  }

  /**
   * A monitor is due when its time has come, and also, against a clock that was set back,
   * whenever its last check lies in the future; unless it is paused.
   */
  lemma DueSpec(m: Monitor, now: int)
    ensures m.active == Some(false) ==> !IsDue(m, now)
    ensures m.active != Some(false) && m.nextCheckAt <= now ==> IsDue(m, now)
    ensures m.active != Some(false) && m.lastChecked.Some? && now < m.lastChecked.value ==> IsDue(m, now)
    ensures IsDue(m, now) && now < m.nextCheckAt ==> m.lastChecked.Some? && now < m.lastChecked.value
  {
  }

  ghost predicate Distinct(ids: seq<MonitorId>) {
    forall i, j :: 0 <= i < j < |ids| ==> ids[i] != ids[j]
  }

  /** The answers findDueMonitors may give: the most overdue first, ties in any order, at most MAX_BATCH. */
  ghost predicate DueBatch(monitors: map<MonitorId, Monitor>, now: int, due: seq<MonitorId>) {
    && Distinct(due) && |due| <= MAX_BATCH
    && (forall i :: 0 <= i < |due| ==> due[i] in monitors && IsDue(monitors[due[i]], now))
    && (forall i, j :: 0 <= i < j < |due| ==> monitors[due[i]].nextCheckAt <= monitors[due[j]].nextCheckAt)
    && (forall id :: id in monitors && IsDue(monitors[id], now) && id !in due ==>
          |due| == MAX_BATCH && forall i :: 0 <= i < |due| ==> monitors[due[i]].nextCheckAt <= monitors[id].nextCheckAt)
  }

  /** The due monitors that are not in flight and that the breaker lets through, in batch order. */
  function Selected(monitors: map<MonitorId, Monitor>, due: seq<MonitorId>, now: int, busy: set<MonitorId>)
    : (ids: seq<MonitorId>)
    requires forall i :: 0 <= i < |due| ==> due[i] in monitors
    ensures forall i :: 0 <= i < |ids| ==> ids[i] in due && ids[i] in monitors && ids[i] !in busy
  {
    if due == [] then []
    else
      var id := due[|due| - 1];
      Selected(monitors, due[..|due| - 1], now, busy)
      + if id !in busy && B.EvaluateBreaker(monitors[id].breaker, now).allowed then [id] else []
  }

  /** How many of the due monitors are already in flight. */
  function Overlaps(due: seq<MonitorId>, busy: set<MonitorId>): (n: nat)
    ensures busy == {} ==> n == 0
  {
    if due == [] then 0 else Overlaps(due[..|due| - 1], busy) + if due[|due| - 1] in busy then 1 else 0
  }

  /** The effect of checking these monitors one after another. */
  function BatchEffect(cfg: B.Config, s: System, ids: seq<MonitorId>, checks: map<MonitorId, Check>): System
    requires forall i :: 0 <= i < |ids| ==> ids[i] in checks
  {
    if ids == [] then s
    else CheckEffect(cfg, BatchEffect(cfg, s, ids[..|ids| - 1], checks), ids[|ids| - 1], checks[ids[|ids| - 1]])
  }

  function BatchMonitors(cfg: B.Config, monitors: map<MonitorId, Monitor>, ids: set<MonitorId>,
                         checks: map<MonitorId, Check>)
    : map<MonitorId, Monitor>
    requires ids <= checks.Keys
  {
    map id | id in monitors :: if id in ids then CheckedMonitor(cfg, monitors[id], checks[id]) else monitors[id]
  }

  function Ids(ids: seq<MonitorId>): set<MonitorId> {
    set i | 0 <= i < |ids| :: ids[i]
  }

  lemma IdsSnoc(ids: seq<MonitorId>, id: MonitorId)
    ensures Ids(ids + [id]) == Ids(ids) + {id}
  {
    assert forall i :: 0 <= i < |ids| ==> (ids + [id])[i] == ids[i];
    assert (ids + [id])[|ids|] == id;
  }

  /** A batch of distinct monitors updates each of them independently of the order. */
  lemma {:induction false} BatchPointwise(cfg: B.Config, s: System, ids: seq<MonitorId>, checks: map<MonitorId, Check>)
    requires Distinct(ids) && forall i :: 0 <= i < |ids| ==> ids[i] in checks
    ensures BatchEffect(cfg, s, ids, checks).monitors == BatchMonitors(cfg, s.monitors, Ids(ids), checks)
  {
    if ids != [] {
      var n := |ids| - 1;
      BatchPointwise(cfg, s, ids[..n], checks);
      assert ids[n] !in Ids(ids[..n]);
      assert Ids(ids) == Ids(ids[..n]) + {ids[n]};
    }
  }

  /** A monitor whose turn has not come yet is stored as it was loaded, and so is whether it has an incident. */
  lemma StillAsLoaded(cfg: B.Config, s: System, ids: seq<MonitorId>, k: nat, checks: map<MonitorId, Check>)
    requires Distinct(ids) && k < |ids| && ids[k] in s.monitors && forall i :: 0 <= i < |ids| ==> ids[i] in checks
    ensures var s' := BatchEffect(cfg, s, ids[..k], checks);
            && ids[k] in s'.monitors && s'.monitors[ids[k]] == s.monitors[ids[k]]
            && (FindOngoing(s'.docs, ids[k]).Some? <==> FindOngoing(s.docs, ids[k]).Some?)
  {
    BatchPointwise(cfg, s, ids[..k], checks);
    assert ids[k] !in Ids(ids[..k]);
    BatchLeavesOthers(cfg, s, ids[..k], checks, ids[k]);
  }

  lemma {:induction false} BatchLeavesOthers(cfg: B.Config, s: System, ids: seq<MonitorId>,
                                             checks: map<MonitorId, Check>, other: MonitorId)
    requires other !in ids && forall i :: 0 <= i < |ids| ==> ids[i] in checks
    ensures FindOngoing(BatchEffect(cfg, s, ids, checks).docs, other).Some? <==> FindOngoing(s.docs, other).Some?
  {
    if ids != [] {
      var n := |ids| - 1;
      BatchLeavesOthers(cfg, s, ids[..n], checks, other);
      CheckLeavesOthers(cfg, BatchEffect(cfg, s, ids[..n], checks), ids[n], checks[ids[n]], other);
    }
  }

  lemma CheckLeavesOthers(cfg: B.Config, s: System, id: MonitorId, c: Check, other: MonitorId)
    requires id != other
    ensures FindOngoing(CheckEffect(cfg, s, id, c).docs, other).Some? <==> FindOngoing(s.docs, other).Some?
  {
    var docs' := CheckEffect(cfg, s, id, c).docs;
    assert forall i :: 0 <= i < |docs'| && (|s.docs| <= i || docs'[i] != s.docs[i]) ==> docs'[i].monitorId == id;
    FoundIff(s.docs, other);
    FoundIff(docs', other);
  }

  /** How the next due monitor extends the selection. */
  lemma SelectedStep(monitors: map<MonitorId, Monitor>, due: seq<MonitorId>, k: nat, now: int, busy: set<MonitorId>)
    requires Distinct(due) && k < |due| && forall i :: 0 <= i < |due| ==> due[i] in monitors
    ensures Selected(monitors, due[..k + 1], now, busy)
            == Selected(monitors, due[..k], now, busy)
               + if due[k] !in busy && B.EvaluateBreaker(monitors[due[k]].breaker, now).allowed then [due[k]] else []
    ensures Overlaps(due[..k + 1], busy) == Overlaps(due[..k], busy) + if due[k] in busy then 1 else 0
    ensures Ids(due[..k + 1]) == Ids(due[..k]) + {due[k]} && due[k] !in Ids(due[..k])
  {
    assert due[..k + 1][..k] == due[..k];
    IdsSnoc(due[..k], due[k]);
    assert due[..k] + [due[k]] == due[..k + 1];
  }

  lemma {:induction false} SelectedSpec(monitors: map<MonitorId, Monitor>, due: seq<MonitorId>, now: int,
                                        busy: set<MonitorId>)
    requires Distinct(due) && forall i :: 0 <= i < |due| ==> due[i] in monitors
    ensures Distinct(Selected(monitors, due, now, busy))
    ensures forall id :: id in Selected(monitors, due, now, busy) <==>
                         id in due && id !in busy && B.EvaluateBreaker(monitors[id].breaker, now).allowed
    ensures forall id :: id in Selected(monitors, due, now, busy) <==>
                         id in due && id !in busy && !B.IsCoolingDown(monitors[id].breaker, now)
  {
    if due != [] {
      var n := |due| - 1;
      SelectedSpec(monitors, due[..n], now, busy);
      B.AllowedUnlessCoolingDown(monitors[due[n]].breaker, now);
      assert due == due[..n] + [due[n]];
      assert forall i :: 0 <= i < n ==> due[i] in due[..n];
    }
  }

  lemma InIds(ids: seq<MonitorId>)
    ensures forall id :: id in ids <==> id in Ids(ids)
  {
  }

  lemma {:induction false} DistinctIdsCount(ids: seq<MonitorId>)
    requires Distinct(ids)
    ensures |Ids(ids)| == |ids|
  {
    if ids != [] {
      var n := |ids| - 1;
      DistinctIdsCount(ids[..n]);
      IdsSnoc(ids[..n], ids[n]);
      assert ids[..n] + [ids[n]] == ids;
      assert ids[n] !in Ids(ids[..n]);
    }
  }

  lemma SameTasks(a: seq<MonitorId>, b: seq<MonitorId>)
    requires Distinct(a) && Distinct(b) && forall id :: id in a <==> id in b
    ensures Ids(a) == Ids(b) && |a| == |b|
  {
    InIds(a);
    InIds(b);
    DistinctIdsCount(a);
    DistinctIdsCount(b);
  }

  /**
   * What a leader's tick meets: an answer to the due query, a result for each monitor in it,
   * and an order in which the pool gets through the checks that are started.
   */
  ghost predicate IsTick(monitors: map<MonitorId, Monitor>, now: int, due: seq<MonitorId>, order: seq<MonitorId>,
                         checks: map<MonitorId, Check>) {
    && DueBatch(monitors, now, due)
    && (forall i :: 0 <= i < |due| ==> due[i] in checks && checks[due[i]].tickNow == now)
    && Distinct(order)
    && (forall i :: 0 <= i < |order| ==> order[i] in Selected(monitors, due, now, {}))
    && (forall id :: id in Selected(monitors, due, now, {}) ==> id in order)
  }

  /** Errors the incident part of a check adds: a failure of a call that was really made. */
  function TransitionErrors(t: Transition, fault: Fault, ongoing: bool): nat {
    if fault == IncidentCallFails && t != Stay then 1
    else if fault == IncidentSaveFails && t == ShouldClose && ongoing then 1
    else 0
  }

  /** Errors one check adds to the statistics: a rejected task, or a caught failure of its incident part. */
  function CheckErrors(m: Monitor, c: Check, ongoing: bool): nat {
    if c.fault == StatusWriteFails || c.fault == LogWriteFails then 1
    else TransitionErrors(TransitionOf(m, c.up), c.fault, ongoing)
  }

  /** An error is counted exactly for a write that failed, and for an incident call that was made and failed. */
  lemma ErrorSpec(m: Monitor, c: Check, ongoing: bool)
    ensures CheckErrors(m, c, ongoing) <= 1
    ensures CheckErrors(m, c, ongoing) == 1 <==>
              match c.fault
              case StatusWriteFails => true
              case LogWriteFails => true
              case IncidentCallFails => TransitionOf(m, c.up) != Stay
              case IncidentSaveFails => TransitionOf(m, c.up) == ShouldClose && ongoing
              case _ => false
  {
  }

  function BatchErrors(s: System, ids: seq<MonitorId>, checks: map<MonitorId, Check>): nat
    requires forall i :: 0 <= i < |ids| ==> ids[i] in s.monitors && ids[i] in checks
  {
    if ids == [] then 0
    else
      var id := ids[|ids| - 1];
      BatchErrors(s, ids[..|ids| - 1], checks) + CheckErrors(s.monitors[id], checks[id], FindOngoing(s.docs, id).Some?)
  }

  /** What the k-th task of a batch does, whichever tasks came before it. */
  lemma TaskStep(cfg: B.Config, s: System, order: seq<MonitorId>, k: nat, checks: map<MonitorId, Check>, now: int)
    requires Distinct(order) && k < |order|
    requires forall i :: 0 <= i < |order| ==> order[i] in s.monitors && order[i] in checks
    requires checks[order[k]].tickNow == now && B.EvaluateBreaker(s.monitors[order[k]].breaker, now).allowed
    ensures var id, c, m := order[k], checks[order[k]], s.monitors[order[k]];
            var before, after := BatchEffect(cfg, s, order[..k], checks), BatchEffect(cfg, s, order[..k + 1], checks);
            && id in before.monitors && before.monitors[id] == m
            && after.monitors == (if c.fault == StatusWriteFails then before.monitors
                                  else before.monitors[id := CheckedMonitor(cfg, m, c)])
            && (after.docs, after.notes) == IncidentEffect(before.docs, before.notes, id, TransitionOf(m, c.up), c)
            && BatchErrors(s, order[..k + 1], checks)
               == BatchErrors(s, order[..k], checks) + CheckErrors(m, c, FindOngoing(before.docs, id).Some?)
    ensures Ids(order[k..]) <= Ids(order[k + 1..]) + {order[k]}
  {
    StillAsLoaded(cfg, s, order, k, checks);
    assert order[..k + 1][..k] == order[..k];
  }

  datatype LogRow = LogRow(monitorId: MonitorId, status: Health, timestamp: int)

  class Database {
    var monitors: map<MonitorId, Monitor>
    var logs: seq<LogRow>

    constructor (monitors: map<MonitorId, Monitor>)
      ensures this.monitors == monitors && logs == []
    {
      this.monitors, logs := monitors, [];
    }
  }

  class MonitorScheduler {
    const cfg: B.Config
    const lock: L.SchedulerLock
    const db: Database
    const service: IncidentService
    var inFlight: set<MonitorId>
    var ticking: bool
    var checksExecuted: nat
    var skippedOverlap: nat
    var skippedBreaker: nat
    var incidentsOpened: nat
    var incidentsClosed: nat
    var errors: nat

    constructor (cfg: B.Config, lock: L.SchedulerLock, db: Database, service: IncidentService)
      ensures this.cfg == cfg && this.lock == lock && this.db == db && this.service == service
      ensures Valid() && !ticking && checksExecuted == skippedOverlap == skippedBreaker == 0
      ensures incidentsOpened == incidentsClosed == errors == 0
    {
      this.cfg, this.lock, this.db, this.service := cfg, lock, db, service;
      inFlight, ticking := {}, false;
      checksExecuted, skippedOverlap, skippedBreaker := 0, 0, 0;
      incidentsOpened, incidentsClosed, errors := 0, 0, 0;
    }

    /** Between ticks nothing is in flight: a tick awaits its whole pool. */
    ghost predicate Valid()
      reads this
    {
      !ticking ==> inFlight == {}
    }

    ghost function View(): System
      reads db, service.incidents, service.registry
    {
      System(db.monitors, service.incidents.docs, service.registry.dispatched)
    }

    /**
     * Every consequence of one check, in the order the writes are made.  `monitor` is the
     * document as loaded; the stored one may have been edited or deleted since.
     */
    method RunCheck(id: MonitorId, monitor: Monitor, verdict: B.Verdict, c: Check) returns (ok: bool)
      modifies this`checksExecuted, this`incidentsOpened, this`incidentsClosed, this`errors
      modifies db, service.incidents, service.registry
      ensures ok == (c.fault != StatusWriteFails && c.fault != LogWriteFails)
      ensures db.monitors == if c.fault == StatusWriteFails || id !in old(db.monitors) then old(db.monitors)
                             else old(db.monitors)[id := ApplyUpdate(old(db.monitors)[id],
                                                                     BuildUpdate(cfg, monitor, verdict, c.up, c.now))]
      ensures db.logs == old(db.logs) + if ok then [LogRow(id, if c.up then UP else DOWN, c.now)] else []
      ensures (service.incidents.docs, service.registry.dispatched)
              == IncidentEffect(old(service.incidents.docs), old(service.registry.dispatched), id,
                                TransitionOf(monitor, c.up), c)
      ensures checksExecuted == old(checksExecuted) + 1
      ensures errors + (if ok then 0 else 1)
              == old(errors) + CheckErrors(monitor, c, FindOngoing(old(service.incidents.docs), id).Some?)
      ensures incidentsOpened - old(incidentsOpened) == |service.incidents.docs| - |old(service.incidents.docs)|
      ensures incidentsClosed - old(incidentsClosed)
              == if TransitionOf(monitor, c.up) == ShouldClose && FindOngoing(old(service.incidents.docs), id).Some?
                    && CheckErrors(monitor, c, true) == 0 then 1 else 0
    {
      checksExecuted := checksExecuted + 1;
      var transition := TransitionOf(monitor, c.up);
      var update := BuildUpdate(cfg, monitor, verdict, c.up, c.now);

      if c.fault == StatusWriteFails { return false; }
      if id in db.monitors {
        db.monitors := db.monitors[id := ApplyUpdate(db.monitors[id], update)];
      }
      if c.fault == LogWriteFails { return false; }
      db.logs := db.logs + [LogRow(id, update.lastCheckStatus, c.now)];

      ok := true;
      ApplyTransition(id, transition, c);
    }

    /** The edge-triggered incident transition of one check; a failure in it is caught and counted. */
    method ApplyTransition(id: MonitorId, transition: Transition, c: Check)
      requires c.fault != StatusWriteFails && c.fault != LogWriteFails
      modifies this`incidentsOpened, this`incidentsClosed, this`errors, service.incidents, service.registry
      ensures (service.incidents.docs, service.registry.dispatched)
              == IncidentEffect(old(service.incidents.docs), old(service.registry.dispatched), id, transition, c)
      ensures var ongoing := FindOngoing(old(service.incidents.docs), id).Some?;
              && errors == old(errors) + TransitionErrors(transition, c.fault, ongoing)
              && incidentsClosed - old(incidentsClosed)
                 == (if transition == ShouldClose && ongoing && TransitionErrors(transition, c.fault, ongoing) == 0
                     then 1 else 0)
      ensures incidentsOpened - old(incidentsOpened) == |service.incidents.docs| - |old(service.incidents.docs)|
    {
      var ownerFound := c.fault != OwnerNotFound;
      assert service.registry.dispatched + [] == service.registry.dispatched;
      match transition
      case Stay =>
      case ShouldOpen =>
        if c.fault == IncidentCallFails {
          errors := errors + 1;
          return;
        }
        var _, created := service.OpenIncident(id, c.reason, c.incidentNow, ownerFound, None);
        if created { incidentsOpened := incidentsOpened + 1; }
      case ShouldClose =>
        if c.fault == IncidentCallFails {
          errors := errors + 1;
          return;
        }
        var _, closed, thrown := service.CloseIncident(id, c.incidentNow, ownerFound, c.fault == IncidentSaveFails);
        if closed { incidentsClosed := incidentsClosed + 1; }
        if thrown { errors := errors + 1; }
    }

    /** The overlap and breaker gates: a monitor already in flight is never started again, only counted. */
    method SelectTasks(loaded: map<MonitorId, Monitor>, due: seq<MonitorId>, now: int) returns (tasks: seq<MonitorId>)
      requires Distinct(due) && forall i :: 0 <= i < |due| ==> due[i] in loaded
      modifies this`inFlight, this`skippedOverlap, this`skippedBreaker
      ensures tasks == Selected(loaded, due, now, old(inFlight))
      ensures inFlight == old(inFlight) + Ids(tasks)
      ensures skippedOverlap == old(skippedOverlap) + Overlaps(due, old(inFlight))
      ensures skippedOverlap + skippedBreaker + |tasks| == old(skippedOverlap + skippedBreaker) + |due|
    {
      tasks := [];
      assert inFlight + Ids(tasks) == inFlight;
      for k := 0 to |due|
        invariant tasks == Selected(loaded, due[..k], now, old(inFlight))
        invariant inFlight == old(inFlight) + Ids(tasks) && Ids(tasks) <= Ids(due[..k])
        invariant skippedOverlap == old(skippedOverlap) + Overlaps(due[..k], old(inFlight))
        invariant skippedOverlap + skippedBreaker + |tasks| == old(skippedOverlap + skippedBreaker) + k
      {
        SelectedStep(loaded, due, k, now, old(inFlight));
        var id := due[k];
        if id in inFlight {
          skippedOverlap := skippedOverlap + 1;
          continue;
        }
        if !B.EvaluateBreaker(loaded[id].breaker, now).allowed {
          skippedBreaker := skippedBreaker + 1;
          continue;
        }
        inFlight := inFlight + {id};
        IdsSnoc(tasks, id);
        tasks := tasks + [id];
      }
      assert due[..|due|] == due;
    }

    /** One task: its monitor leaves the in-flight set whatever happened, and a rejection is counted. */
    method RunTask(id: MonitorId, monitor: Monitor, verdict: B.Verdict, c: Check)
      requires id in db.monitors && db.monitors[id] == monitor
      modifies this`inFlight, this`checksExecuted, this`incidentsOpened, this`incidentsClosed, this`errors
      modifies db, service.incidents, service.registry
      ensures inFlight == old(inFlight) - {id}
      ensures db.monitors == if c.fault == StatusWriteFails then old(db.monitors)
                             else var update := BuildUpdate(cfg, monitor, verdict, c.up, c.now);
                                  old(db.monitors)[id := ApplyUpdate(monitor, update)]
      ensures (service.incidents.docs, service.registry.dispatched)
              == IncidentEffect(old(service.incidents.docs), old(service.registry.dispatched), id,
                                TransitionOf(monitor, c.up), c)
      ensures checksExecuted == old(checksExecuted) + 1
      ensures errors == old(errors) + CheckErrors(monitor, c, FindOngoing(old(service.incidents.docs), id).Some?)
    {
      var ok := RunCheck(id, monitor, verdict, c);
      inFlight := inFlight - {id};
      if !ok { errors := errors + 1; }
    }

    /** The pool's work; `order` is the order in which the pool gets through the tasks. */
    method RunTasks(loaded: map<MonitorId, Monitor>, order: seq<MonitorId>, checks: map<MonitorId, Check>, now: int)
      requires loaded == db.monitors && Distinct(order) && inFlight == Ids(order)
      requires forall i :: 0 <= i < |order| ==> order[i] in loaded && order[i] in checks
      requires forall i :: 0 <= i < |order| ==> checks[order[i]].tickNow == now
      requires forall i :: 0 <= i < |order| ==> B.EvaluateBreaker(loaded[order[i]].breaker, now).allowed
      modifies this`inFlight, this`checksExecuted, this`incidentsOpened, this`incidentsClosed, this`errors
      modifies db, service.incidents, service.registry
      ensures inFlight == {}
      ensures View() == BatchEffect(cfg, old(View()), order, checks)
      ensures checksExecuted == old(checksExecuted) + |order|
      ensures errors == old(errors) + BatchErrors(old(View()), order, checks)
    {
      for k := 0 to |order|
        invariant View() == BatchEffect(cfg, old(View()), order[..k], checks)
        invariant inFlight <= Ids(order[k..])
        invariant checksExecuted == old(checksExecuted) + k
        invariant errors == old(errors) + BatchErrors(old(View()), order[..k], checks)
      {
        var id := order[k];
        TaskStep(cfg, old(View()), order, k, checks, now);
        RunTask(id, loaded[id], B.EvaluateBreaker(loaded[id].breaker, now), checks[id]);
      }
      assert order[..|order|] == order;
    }

    /**
     * One iteration.  A follower changes nothing but the lease; a leader's effect is exactly
     * that of checking the due monitors its breakers let through, in the order the pool gets
     * to them, and the overlap guard never has to skip anything.
     */
    method Tick(leaseNow: int, fate: L.Fate, now: int, due: seq<MonitorId>, order: seq<MonitorId>,
                checks: map<MonitorId, Check>)
      requires Valid()
      requires IsTick(db.monitors, now, due, order, checks)
      modifies this, db, service.incidents, service.registry, lock`isLeader, lock.model`stored
      ensures Valid() && ticking == old(ticking)
      ensures old(ticking) ==> lock.isLeader == old(lock.isLeader) && lock.model.stored == old(lock.model.stored)
      ensures old(ticking) || !lock.isLeader ==> View() == old(View()) && checksExecuted == old(checksExecuted)
      ensures skippedOverlap == old(skippedOverlap)
      ensures !old(ticking) && lock.isLeader ==>
                && View() == BatchEffect(cfg, old(View()), order, checks)
                && checksExecuted == old(checksExecuted) + |order|
                && skippedBreaker == old(skippedBreaker) + (|due| - |order|)
                && errors == old(errors) + BatchErrors(old(View()), order, checks)
    {
      if ticking { return; }
      ticking := true;
      var isLeader := lock.Acquire(leaseNow, fate);
      if isLeader {
        CheckDue(now, due, order, checks);
      }
      ticking := false;
    }

    /** The leader's part of a tick. */
    method CheckDue(now: int, due: seq<MonitorId>, order: seq<MonitorId>, checks: map<MonitorId, Check>)
      requires inFlight == {} && IsTick(db.monitors, now, due, order, checks)
      modifies this`inFlight, this`skippedOverlap, this`skippedBreaker
      modifies this`checksExecuted, this`incidentsOpened, this`incidentsClosed, this`errors
      modifies db, service.incidents, service.registry
      ensures inFlight == {} && skippedOverlap == old(skippedOverlap)
      ensures View() == BatchEffect(cfg, old(View()), order, checks)
      ensures checksExecuted == old(checksExecuted) + |order|
      ensures skippedBreaker == old(skippedBreaker) + (|due| - |order|)
      ensures errors == old(errors) + BatchErrors(old(View()), order, checks)
    {
      var loaded := db.monitors;
      SelectedSpec(loaded, due, now, {});
      var tasks := SelectTasks(loaded, due, now);
      SameTasks(tasks, order);
      RunTasks(loaded, order, checks, now);
    }
  }
}
