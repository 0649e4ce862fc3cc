/**
 * The checks of one batch as the pool really runs them: any number at once, interleaving
 * between their writes, while owners go on editing, creating and deleting monitors.
 */
module Batches {
  import opened Common
  import opened FlapDetection
  import opened Incidents
  import opened Checks
  import opened Scheduler
  import B = CircuitBreaker

  /** A started check: its monitor as loaded by the tick, and what it meets. */
  datatype Task = Task(loaded: Monitor, check: Check)

  type Tasks = map<MonitorId, Task>

  /** The next thing a task does: write the monitor, write the log row, make the incident transition. */
  datatype Stage = Started | Recorded | Logged | Finished

  datatype Batch = Batch(s: System, stages: map<MonitorId, Stage>)

  datatype Step = Write(id: MonitorId) | Owner(op: Op)

  function UpdateOf(cfg: B.Config, t: Task): Update {
    BuildUpdate(cfg, t.loaded, B.EvaluateBreaker(t.loaded.breaker, t.check.tickNow), t.check.up, t.check.now)
  }

  /** One step; an owner's new monitor gets an id that was never given out, so no task has it. */
  function Next(cfg: B.Config, tasks: Tasks, w: Batch, step: Step): Batch {
    match step
    case Write(id) => if id in w.stages && id in tasks then NextWrite(cfg, w, id, tasks[id]) else w
    case Owner(op) =>
      if op.Perform? || (op.Create? && op.id in tasks) then w else w.(s := Checks.Step(cfg, w.s, op))
  }

  function NextWrite(cfg: B.Config, w: Batch, id: MonitorId, t: Task): Batch
    requires id in w.stages
  {
    match w.stages[id]
    case Started =>
      if t.check.fault == StatusWriteFails then w.(stages := w.stages[id := Finished])
      else Batch(if id in w.s.monitors
                 then w.s.(monitors := w.s.monitors[id := ApplyUpdate(w.s.monitors[id], UpdateOf(cfg, t))])
                 else w.s, w.stages[id := Recorded])
    case Recorded => w.(stages := w.stages[id := if t.check.fault == LogWriteFails then Finished else Logged])
    case Logged =>
      var (docs, notes) := IncidentEffect(w.s.docs, w.s.notes, id, TransitionOf(t.loaded, t.check.up), t.check);
      Batch(w.s.(docs := docs, notes := notes), w.stages[id := Finished])
    case Finished => w
  }

  function Run(cfg: B.Config, tasks: Tasks, w: Batch, steps: seq<Step>): Batch {
    if steps == [] then w else Next(cfg, tasks, Run(cfg, tasks, w, steps[..|steps| - 1]), steps[|steps| - 1])
  }

  /** All tasks are about to begin, each with its monitor as stored and its breaker's consent. */
  ghost predicate Launched(s: System, tasks: Tasks, w: Batch) {
    && w.s == s && w.stages == (map id | id in tasks :: Started)
    && forall id :: id in tasks ==>
         && id in s.monitors && tasks[id].loaded == s.monitors[id]
         && B.EvaluateBreaker(tasks[id].loaded.breaker, tasks[id].check.tickNow).allowed
  }

  predicate AllFinished(w: Batch) {
    forall id :: id in w.stages ==> w.stages[id] == Finished
  }

  // ---------------------------------------------------------------- the monitors

  /** The fields the scheduler owns. */
  function RecordOf(m: Monitor): Monitor {
    m.(active := None, interval := None, failureThreshold := None, successThreshold := None)
  }

  /** What of a task's monitor must be stored at its stage. */
  predicate RecordOk(cfg: B.Config, w: Batch, id: MonitorId, t: Task) {
    id in w.stages && id in w.s.monitors ==>
      RecordOf(w.s.monitors[id])
      == RecordOf(if w.stages[id] == Started then t.loaded else CheckedMonitor(cfg, t.loaded, t.check))
  }

  ghost predicate RecordsOk(cfg: B.Config, tasks: Tasks, w: Batch) {
    w.stages.Keys == tasks.Keys && forall id :: id in tasks ==> RecordOk(cfg, w, id, tasks[id])
  }

  ghost predicate AllAllowed(tasks: Tasks) {
    forall id :: id in tasks ==> B.EvaluateBreaker(tasks[id].loaded.breaker, tasks[id].check.tickNow).allowed
  }

  lemma RecordsKept(cfg: B.Config, tasks: Tasks, w: Batch, step: Step)
    requires RecordsOk(cfg, tasks, w) && AllAllowed(tasks)
    ensures RecordsOk(cfg, tasks, Next(cfg, tasks, w, step))
  {
    var w' := Next(cfg, tasks, w, step);
    forall id | id in tasks ensures RecordOk(cfg, w', id, tasks[id]) {
      assert RecordOk(cfg, w, id, tasks[id]);
      if step == Write(id) {
        OwnRecordKept(cfg, w, id, tasks[id]);
      }
    }
  }

  lemma OwnRecordKept(cfg: B.Config, w: Batch, id: MonitorId, t: Task)
    requires id in w.stages && RecordOk(cfg, w, id, t) && B.EvaluateBreaker(t.loaded.breaker, t.check.tickNow).allowed
    ensures RecordOk(cfg, NextWrite(cfg, w, id, t), id, t)
  {
  }

  /**
   * Under every interleaving, with any faults and any owner activity, the scheduler's fields
   * of a monitor are at each point those of its own check alone: the monitor as loaded until
   * the check has written, and as checked from then on.
   */
  lemma {:induction false} InterleavedRecords(cfg: B.Config, s: System, tasks: Tasks, w: Batch, steps: seq<Step>)
    requires Launched(s, tasks, w)
    ensures RecordsOk(cfg, tasks, Run(cfg, tasks, w, steps))
  {
    if steps != [] {
      InterleavedRecords(cfg, s, tasks, w, steps[..|steps| - 1]);
      RecordsKept(cfg, tasks, Run(cfg, tasks, w, steps[..|steps| - 1]), steps[|steps| - 1]);
    }
  }

  function ChecksOf(tasks: Tasks): map<MonitorId, Check> {
    map id | id in tasks :: tasks[id].check
  }

  /** Tasks leave the owner's settings, and every monitor without a task, alone. */
  predicate SettingsKept(ms: map<MonitorId, Monitor>, ms': map<MonitorId, Monitor>, tasks: Tasks) {
    && ms'.Keys == ms.Keys
    && forall id :: id in ms ==>
         && (id !in tasks ==> ms'[id] == ms[id])
         && ms'[id] == RecordOf(ms'[id]).(active := ms[id].active, interval := ms[id].interval,
                                          failureThreshold := ms[id].failureThreshold,
                                          successThreshold := ms[id].successThreshold)
  }

  lemma {:induction false} WritesKeepSettings(cfg: B.Config, tasks: Tasks, w: Batch, steps: seq<Step>)
    requires forall k :: 0 <= k < |steps| ==> steps[k].Write?
    ensures SettingsKept(w.s.monitors, Run(cfg, tasks, w, steps).s.monitors, tasks)
  {
    if steps != [] { WritesKeepSettings(cfg, tasks, w, steps[..|steps| - 1]); }
  }

  /** So a whole batch leaves the same monitors under every interleaving as one check after another. */
  lemma InterleavedMonitors(cfg: B.Config, s: System, tasks: Tasks, w: Batch, steps: seq<Step>)
    requires Launched(s, tasks, w) && forall k :: 0 <= k < |steps| ==> steps[k].Write?
    requires AllFinished(Run(cfg, tasks, w, steps))
    ensures Run(cfg, tasks, w, steps).s.monitors == BatchMonitors(cfg, s.monitors, tasks.Keys, ChecksOf(tasks))
  {
    InterleavedRecords(cfg, s, tasks, w, steps);
    WritesKeepSettings(cfg, tasks, w, steps);
    var w' := Run(cfg, tasks, w, steps);
    forall id | id in s.monitors
      ensures w'.s.monitors[id] == BatchMonitors(cfg, s.monitors, tasks.Keys, ChecksOf(tasks))[id]
    {
      if id in tasks { assert RecordOk(cfg, w', id, tasks[id]); }
    }
  }

  // ---------------------------------------------------------------- status and incidents

  /** The transition a task has recorded in its monitor but not yet made in the incidents. */
  function Owed(tasks: Tasks, w: Batch, id: MonitorId): Transition {
    if id in tasks && id in w.stages && w.stages[id] in {Recorded, Logged} then
      TransitionOf(tasks[id].loaded, tasks[id].check.up)
    else Stay
  }

  /** Whether a monitor must have an incident: as its status says, unless a transition is still owed. */
  ghost predicate AgreesUpToOwed(tasks: Tasks, w: Batch, id: MonitorId)
    requires id in w.s.monitors
  {
    var events := EventsOf(w.s.notes, w.s.docs, id);
    && (FindOngoing(w.s.docs, id).Some? <==> |events| % 2 == 1) && Alternates(events)
    && (FindOngoing(w.s.docs, id).Some? <==>
          match Owed(tasks, w, id)
          case Stay => w.s.monitors[id].flap.status == DOWN
          case ShouldOpen => false
          case ShouldClose => true)
  }

  ghost predicate MidAgreement(cfg: B.Config, tasks: Tasks, w: Batch) {
    && RecordsOk(cfg, tasks, w) && OneOngoing(w.s.docs) && NotesInRange(w.s)
    && forall id :: id in w.s.monitors ==> AgreesUpToOwed(tasks, w, id)
  }

  ghost predicate NoFaults(tasks: Tasks) {
    forall id :: id in tasks ==> tasks[id].check.fault == NoFault
  }

  lemma OwnerKeepsMid(cfg: B.Config, tasks: Tasks, w: Batch, op: Op)
    requires MidAgreement(cfg, tasks, w) && AllAllowed(tasks)
    ensures MidAgreement(cfg, tasks, Next(cfg, tasks, w, Owner(op)))
  {
    RecordsKept(cfg, tasks, w, Owner(op));
    var w' := Next(cfg, tasks, w, Owner(op));
    forall k | k in w'.s.monitors ensures AgreesUpToOwed(tasks, w', k) {
      if k in w.s.monitors {
        assert AgreesUpToOwed(tasks, w, k);
      } else {
        NoEvents(w.s.notes, w.s.docs, k);
      }
    }
  }

  /** Writing the monitor turns the agreement into a transition owed. */
  lemma RecordingOwes(cfg: B.Config, tasks: Tasks, w: Batch, id: MonitorId)
    requires MidAgreement(cfg, tasks, w) && AllAllowed(tasks) && NoFaults(tasks)
    requires id in tasks && w.stages[id] != Logged
    ensures MidAgreement(cfg, tasks, Next(cfg, tasks, w, Write(id)))
  {
    RecordsKept(cfg, tasks, w, Write(id));
    var w' := Next(cfg, tasks, w, Write(id));
    forall k | k in w'.s.monitors ensures AgreesUpToOwed(tasks, w', k) {
      assert AgreesUpToOwed(tasks, w, k);
      if k == id { assert RecordOk(cfg, w, id, tasks[id]) && RecordOk(cfg, w', id, tasks[id]); }
    }
  }

  /** The incident call pays it. */
  lemma TransitionPays(cfg: B.Config, tasks: Tasks, w: Batch, id: MonitorId)
    requires MidAgreement(cfg, tasks, w) && AllAllowed(tasks) && NoFaults(tasks)
    requires id in tasks && w.stages[id] == Logged
    ensures MidAgreement(cfg, tasks, Next(cfg, tasks, w, Write(id)))
  {
    RecordsKept(cfg, tasks, w, Write(id));
    var w', t := Next(cfg, tasks, w, Write(id)), TransitionOf(tasks[id].loaded, tasks[id].check.up);
    forall k | k in w'.s.monitors ensures AgreesUpToOwed(tasks, w', k) {
      assert AgreesUpToOwed(tasks, w, k);
      if k == id {
        TransitionPaysOwn(cfg, tasks, w, id);
      } else {
        EffectOnOthers(w.s.docs, w.s.notes, id, t, tasks[id].check, k);
      }
    }
    EffectOnOthers(w.s.docs, w.s.notes, id, t, tasks[id].check, id + 1);
  }

  lemma TransitionPaysOwn(cfg: B.Config, tasks: Tasks, w: Batch, id: MonitorId)
    requires OneOngoing(w.s.docs) && NotesInRange(w.s) && NoFaults(tasks) && AllAllowed(tasks)
    requires id in tasks && id in w.stages && w.stages[id] == Logged && id in w.s.monitors
    requires RecordOk(cfg, w, id, tasks[id]) && AgreesUpToOwed(tasks, w, id)
    ensures AgreesUpToOwed(tasks, Next(cfg, tasks, w, Write(id)), id)
  {
    var t := TransitionOf(tasks[id].loaded, tasks[id].check.up);
    IncidentEffectOn(w.s.docs, w.s.notes, id, t, tasks[id].check, id);
    TransitionAlternates(EventsOf(w.s.notes, w.s.docs, id), tasks[id].loaded.flap.status, t);
  }

  lemma {:induction false} MidReachable(cfg: B.Config, s: System, tasks: Tasks, w: Batch, steps: seq<Step>)
    requires Launched(s, tasks, w) && Agreement(s) && NoFaults(tasks)
    ensures MidAgreement(cfg, tasks, Run(cfg, tasks, w, steps))
  {
    if steps == [] {
      forall id | id in s.monitors ensures AgreesUpToOwed(tasks, w, id) {
        assert StatusAgrees(s, id) && EventsAgree(s, id);
      }
    } else {
      var n := |steps| - 1;
      MidReachable(cfg, s, tasks, w, steps[..n]);
      var mid := Run(cfg, tasks, w, steps[..n]);
      match steps[n]
      case Owner(op) => OwnerKeepsMid(cfg, tasks, mid, op);
      case Write(id) =>
        if id in tasks && mid.stages[id] == Logged {
          TransitionPays(cfg, tasks, mid, id);
        } else if id in tasks {
          RecordingOwes(cfg, tasks, mid, id);
        }
    }
  }

  /**
   * A fault-free batch keeps the agreement of status, incidents and announcements under every
   * interleaving of its checks' writes with each other and with owner activity.  On the way
   * a monitor disagrees only while its own incident call is outstanding.
   */
  lemma InterleavedAgreement(cfg: B.Config, s: System, tasks: Tasks, w: Batch, steps: seq<Step>)
    requires Launched(s, tasks, w) && Agreement(s) && NoFaults(tasks)
    ensures var w' := Run(cfg, tasks, w, steps);
            && (forall id :: id in w'.s.monitors && Owed(tasks, w', id) == Stay ==>
                  StatusAgrees(w'.s, id) && EventsAgree(w'.s, id))
            && (AllFinished(w') ==> Agreement(w'.s))
  {
    MidReachable(cfg, s, tasks, w, steps);
    var w' := Run(cfg, tasks, w, steps);
    forall id | id in w'.s.monitors && Owed(tasks, w', id) == Stay
      ensures StatusAgrees(w'.s, id) && EventsAgree(w'.s, id)
    {
      assert AgreesUpToOwed(tasks, w', id);
    }
  }

  // ---------------------------------------------------------------- the breakers

  lemma BreakersKeptByWrite(cfg: B.Config, tasks: Tasks, w: Batch, id: MonitorId)
    requires RecordsOk(cfg, tasks, w) && AllAllowed(tasks) && BreakersInv(cfg, w.s) && TasksInv(cfg, tasks)
    ensures BreakersInv(cfg, Next(cfg, tasks, w, Write(id)).s)
  {
    var w' := Next(cfg, tasks, w, Write(id));
    RecordsKept(cfg, tasks, w, Write(id));
    forall k | k in w'.s.monitors ensures BreakerInv(cfg, w'.s.monitors[k]) {
      assert BreakerInv(cfg, w.s.monitors[k]);
      if k == id && id in tasks {
        assert RecordOk(cfg, w', id, tasks[id]);
        CheckedKeepsBreaker(cfg, tasks[id]);
      }
    }
  }

  ghost predicate TasksInv(cfg: B.Config, tasks: Tasks) {
    forall id :: id in tasks ==> BreakerInv(cfg, tasks[id].loaded)
  }

  lemma CheckedKeepsBreaker(cfg: B.Config, t: Task)
    requires BreakerInv(cfg, t.loaded) && B.EvaluateBreaker(t.loaded.breaker, t.check.tickNow).allowed
    ensures BreakerInv(cfg, CheckedMonitor(cfg, t.loaded, t.check))
  {
    CheckKeepsBreakerInv(cfg, t.loaded, t.check.tickNow, t.check.up, t.check.now);
  }

  /** Every breaker keeps its invariant at every point of every interleaving, faults included. */
  lemma {:induction false} InterleavedBreakers(cfg: B.Config, s: System, tasks: Tasks, w: Batch, steps: seq<Step>)
    requires Launched(s, tasks, w) && BreakersInv(cfg, s)
    ensures BreakersInv(cfg, Run(cfg, tasks, w, steps).s)
  {
    if steps != [] {
      var n := |steps| - 1;
      InterleavedBreakers(cfg, s, tasks, w, steps[..n]);
      InterleavedRecords(cfg, s, tasks, w, steps[..n]);
      match steps[n]
      case Owner(op) => StepKeepsBreakers(cfg, Run(cfg, tasks, w, steps[..n]).s, op);
      case Write(id) => BreakersKeptByWrite(cfg, tasks, Run(cfg, tasks, w, steps[..n]), id);
    }
  }
}
