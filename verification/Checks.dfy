/**
 * One check of one monitor: the update it composes from the flap counters, the breaker
 * patches and the schedule, and its effect on the incident collection.
 *
 * The update is computed from the monitor as loaded at the start of the tick and applied
 * field by field to whatever is stored when the check ends.
 */
module Checks {
  import opened Common
  import opened FlapDetection
  import opened Incidents
  import B = CircuitBreaker

  datatype Monitor = Monitor(active: Option<bool>, interval: Option<int>,
                             failureThreshold: Option<int>, successThreshold: Option<int>,
                             flap: Flap, breaker: B.Breaker,
                             lastCheckStatus: Option<Health>, lastChecked: Option<int>, nextCheckAt: int)

  const MIN_INTERVAL_SECONDS := 5

  /** A missing or zero interval means 60; anything below the floor is raised to it. */
  function IntervalSeconds(m: Monitor): (s: int)
    ensures 5 <= s
    ensures m.interval.Some? && 5 <= m.interval.value ==> s == m.interval.value
    ensures m.interval.None? || m.interval == Some(0) ==> s == 60
    ensures m.interval.Some? && m.interval.value != 0 && m.interval.value < 5 ==> s == 5
  {
    Max(MIN_INTERVAL_SECONDS, if m.interval.None? || m.interval.value == 0 then 60 else m.interval.value)
  }

  function FailureThreshold(m: Monitor): (n: nat)
    ensures 1 <= n
    ensures m.failureThreshold.Some? && 1 <= m.failureThreshold.value ==> n == m.failureThreshold.value
    ensures m.failureThreshold.Some? && m.failureThreshold.value < 1 ==> n == 1
    ensures m.failureThreshold.None? ==> n == 3
  {
    Max(1, if m.failureThreshold.Some? then m.failureThreshold.value else 3)
  }

  function SuccessThreshold(m: Monitor): (n: nat)
    ensures 1 <= n
    ensures m.successThreshold.Some? && 1 <= m.successThreshold.value ==> n == m.successThreshold.value
    ensures m.successThreshold.Some? && m.successThreshold.value < 1 ==> n == 1
    ensures m.successThreshold.None? ==> n == 2
  {
    Max(1, if m.successThreshold.Some? then m.successThreshold.value else 2)
  }

  function TransitionOf(m: Monitor, up: bool): Transition {
    Decide(m.flap, FailureThreshold(m), SuccessThreshold(m), up)
  }

  /** The fields of the $set; `status` is present only on a transition. */
  datatype Update = Update(lastChecked: int, lastCheckStatus: Health, failures: nat, successes: nat, nextCheckAt: int,
                           verdictPatch: B.Patch, outcomePatch: B.Patch, status: Option<Health>)

  function BuildUpdate(cfg: B.Config, m: Monitor, verdict: B.Verdict, up: bool, now: int): Update {
    var counted := Counted(m.flap, up);
    Update(now, if up then UP else DOWN, counted.failures, counted.successes, now + IntervalSeconds(m) * 1000,
           verdict.patch,
           if up then B.OnCheckSuccess(m.breaker) else B.OnCheckFailure(cfg, m.breaker, counted.failures, now),
           match TransitionOf(m, up) case Stay => None case ShouldOpen => Some(DOWN) case ShouldClose => Some(UP))
  }

  /** A targeted $set: fields the update does not name, the owner's settings among them, keep their stored values. */
  function ApplyUpdate(stored: Monitor, u: Update): Monitor {
    stored.(
      lastChecked := Some(u.lastChecked), lastCheckStatus := Some(u.lastCheckStatus), nextCheckAt := u.nextCheckAt,
      flap := Flap(if u.status.Some? then u.status.value else stored.flap.status, u.failures, u.successes),
      breaker := B.Apply(B.Apply(stored.breaker, u.verdictPatch), u.outcomePatch))
  }

  /** With a single writer, a check is one flap step, one breaker step and one reschedule. */
  lemma SingleWriterUpdate(cfg: B.Config, m: Monitor, evaluatedAt: int, up: bool, now: int)
    ensures var verdict := B.EvaluateBreaker(m.breaker, evaluatedAt);
            var m' := ApplyUpdate(m, BuildUpdate(cfg, m, verdict, up, now));
            && m'.flap == AfterResult(m.flap, FailureThreshold(m), SuccessThreshold(m), up)
            && m'.breaker == B.AfterCheck(cfg, m.breaker, verdict, up, m'.flap.failures, now)
            && m'.nextCheckAt == now + IntervalSeconds(m) * 1000 && m'.lastChecked == Some(now)
            && (m'.lastCheckStatus == Some(UP) <==> up)
            && (m'.active, m'.interval) == (m.active, m.interval)
            && (m'.failureThreshold, m'.successThreshold) == (m.failureThreshold, m.successThreshold)
  {
  }

  ghost predicate BreakerInv(cfg: B.Config, m: Monitor) {
    B.Inv(cfg, m.breaker, m.flap.failures)
  }

  /** The breaker and the flap counter stay in step: CLOSED exactly while the failures are below the threshold. */
  lemma CheckKeepsBreakerInv(cfg: B.Config, m: Monitor, evaluatedAt: int, up: bool, now: int)
    requires BreakerInv(cfg, m) && B.EvaluateBreaker(m.breaker, evaluatedAt).allowed
    ensures var m' := ApplyUpdate(m, BuildUpdate(cfg, m, B.EvaluateBreaker(m.breaker, evaluatedAt), up, now));
            BreakerInv(cfg, m')
  {
    SingleWriterUpdate(cfg, m, evaluatedAt, up, now);
    B.CheckKeepsInv(cfg, m.breaker, m.flap.failures, evaluatedAt, up, now);
  }

  // ---------------------------------------------------------------- checks and incidents together

  /**
   * Which of the check's writes fails; a failure loses every later effect of the check.
   * `IncidentCallFails` hits the incident's first update, `IncidentSaveFails` the save that
   * follows a close.
   */
  datatype Fault = NoFault | StatusWriteFails | LogWriteFails | IncidentCallFails | IncidentSaveFails | OwnerNotFound

  /**
   * `tickNow` is when the tick loaded the monitor, `startedAt` when a worker took the check
   * on, `now` when the probe ended, `incidentNow` the incident service's own reading.
   */
  datatype Check = Check(tickNow: int, startedAt: int, up: bool, now: int, incidentNow: int, reason: string,
                         fault: Fault)

  datatype System = System(monitors: map<MonitorId, Monitor>, docs: seq<Incident>, notes: seq<Note>)

  function ReachesIncident(fault: Fault): bool {
    fault in {NoFault, OwnerNotFound, IncidentSaveFails}
  }

  function Opened(docs: seq<Incident>, notes: seq<Note>, id: MonitorId, c: Check): (seq<Incident>, seq<Note>) {
    if FindOngoing(docs, id).Some? then (docs, notes)
    else (docs + [NewIncident(id, c.incidentNow, c.reason)],
          notes + if c.fault == OwnerNotFound then [] else [Note(OPENED, |docs|)])
  }

  function Closed(docs: seq<Incident>, notes: seq<Note>, id: MonitorId, c: Check): (seq<Incident>, seq<Note>) {
    var found := FindOngoing(docs, id);
    if found.None? then (docs, notes)
    else if c.fault == IncidentSaveFails then (Resolve(docs, found.value, c.incidentNow), notes)
    else (Saved(Resolve(docs, found.value, c.incidentNow), found.value),
          notes + if c.fault == OwnerNotFound then [] else [Note(CLOSED, found.value)])
  }

  function IncidentEffect(docs: seq<Incident>, notes: seq<Note>, id: MonitorId, t: Transition, c: Check)
    : (seq<Incident>, seq<Note>)
  {
    if !ReachesIncident(c.fault) then (docs, notes)
    else match t
      case Stay => (docs, notes)
      case ShouldOpen => Opened(docs, notes, id, c)
      case ShouldClose => Closed(docs, notes, id, c)
  }

  /** A whole check: the status is written first, the incident transition comes last. */
  function CheckEffect(cfg: B.Config, s: System, id: MonitorId, c: Check): System {
    if id !in s.monitors || c.fault == StatusWriteFails then s
    else if !B.EvaluateBreaker(s.monitors[id].breaker, c.tickNow).allowed then s
    else
      var m := s.monitors[id];
      var u := BuildUpdate(cfg, m, B.EvaluateBreaker(m.breaker, c.tickNow), c.up, c.now);
      var (docs, notes) := IncidentEffect(s.docs, s.notes, id, TransitionOf(m, c.up), c);
      System(s.monitors[id := ApplyUpdate(m, u)], docs, notes)
  }

  datatype Op =
    | Perform(id: MonitorId, check: Check)
    | Create(id: MonitorId, active: Option<bool>, interval: Option<int>,
             failureThreshold: Option<int>, successThreshold: Option<int>, now: int)
    | Delete(id: MonitorId)
    | EditSettings(id: MonitorId, active: Option<bool>, interval: Option<int>,
                   failureThreshold: Option<int>, successThreshold: Option<int>)

  /** A new monitor is due immediately and has no history. */
  function NewMonitor(active: Option<bool>, interval: Option<int>, failureThreshold: Option<int>,
                      successThreshold: Option<int>, now: int): Monitor {
    Monitor(active, interval, failureThreshold, successThreshold, FlapDetection.Fresh, B.Fresh, None, None, now)
  }

  /** So its first check is due at once, it counts as UP without any streak, and its breaker is closed. */
  lemma NewMonitorSpec(active: Option<bool>, interval: Option<int>, failureThreshold: Option<int>,
                       successThreshold: Option<int>, now: int)
    ensures var m := NewMonitor(active, interval, failureThreshold, successThreshold, now);
            && m.nextCheckAt == now && m.lastChecked.None? && m.lastCheckStatus.None?
            && m.flap.status == UP && m.flap.failures == m.flap.successes == 0
            && m.breaker.mode == B.CLOSED && m.breaker.opens == 0
            && m.breaker.openedAt.None? && m.breaker.retryAt.None?
            && (m.active, m.interval) == (active, interval)
            && (m.failureThreshold, m.successThreshold) == (failureThreshold, successThreshold)
  {
  }

  /** An id the database has never given out. */
  predicate IsUnused(s: System, id: MonitorId) {
    id !in s.monitors && forall i :: 0 <= i < |s.docs| ==> s.docs[i].monitorId != id
  }

  /** One operation: a whole check, or the owner creating, deleting or re-configuring a monitor. */
  function Step(cfg: B.Config, s: System, op: Op): System {
    match op
    case Perform(id, c) => CheckEffect(cfg, s, id, c)
    case Create(id, active, interval, n, m, now) =>
      if !IsUnused(s, id) then s
      else s.(monitors := s.monitors[id := NewMonitor(active, interval, n, m, now)])
    case Delete(id) => s.(monitors := s.monitors - {id})
    case EditSettings(id, active, interval, n, m) =>
      if id !in s.monitors then s
      else s.(monitors := s.monitors[id := s.monitors[id].(active := active, interval := interval,
                                                           failureThreshold := n, successThreshold := m)])
  }

  /** What an owner's operation changes: exactly one monitor, and of a stored one exactly its settings. */
  lemma OwnerOpSpec(cfg: B.Config, s: System, op: Op)
    requires !op.Perform?
    ensures var s' := Step(cfg, s, op);
            && s'.docs == s.docs && s'.notes == s.notes
            && (forall id :: id != op.id ==>
                  (id in s'.monitors <==> id in s.monitors) && (id in s.monitors ==> s'.monitors[id] == s.monitors[id]))
            && (op.Delete? ==> op.id !in s'.monitors)
            && (op.Create? && IsUnused(s, op.id) ==>
                  && op.id in s'.monitors && s'.monitors[op.id].nextCheckAt == op.now
                  && HasSettings(s'.monitors[op.id], op))
            && (op.EditSettings? ==> (op.id in s'.monitors <==> op.id in s.monitors))
            && (op.EditSettings? && op.id in s.monitors ==>
                  var m, m' := s.monitors[op.id], s'.monitors[op.id];
                  && HasSettings(m', op) && m'.flap == m.flap && m'.breaker == m.breaker
                  && m'.nextCheckAt == m.nextCheckAt
                  && (m'.lastChecked, m'.lastCheckStatus) == (m.lastChecked, m.lastCheckStatus))
  {
  }

  predicate HasSettings(m: Monitor, op: Op)
    requires op.Create? || op.EditSettings?
  {
    && m.active == op.active && m.interval == op.interval
    && m.failureThreshold == op.failureThreshold && m.successThreshold == op.successThreshold
  }

  function Run(cfg: B.Config, s: System, ops: seq<Op>): System {
    if ops == [] then s else Step(cfg, Run(cfg, s, ops[..|ops| - 1]), ops[|ops| - 1])
  }

  /** The events announced about one monitor, in order. */
  function EventsOf(notes: seq<Note>, docs: seq<Incident>, id: MonitorId): seq<Event> {
    if notes == [] then []
    else
      var n := notes[|notes| - 1];
      EventsOf(notes[..|notes| - 1], docs, id)
      + if n.incident < |docs| && docs[n.incident].monitorId == id then [n.event] else []
  }

  ghost predicate Alternates(events: seq<Event>) {
    forall k :: 0 <= k < |events| ==> events[k] == if k % 2 == 0 then OPENED else CLOSED
  }

  ghost predicate StatusAgrees(s: System, id: MonitorId)
    requires id in s.monitors
  {
    s.monitors[id].flap.status == DOWN <==> FindOngoing(s.docs, id).Some?
  }

  ghost predicate EventsAgree(s: System, id: MonitorId)
    requires id in s.monitors
  {
    var events := EventsOf(s.notes, s.docs, id);
    Alternates(events) && (s.monitors[id].flap.status == DOWN <==> |events| % 2 == 1)
  }

  ghost predicate NotesInRange(s: System) {
    forall k :: 0 <= k < |s.notes| ==> s.notes[k].incident < |s.docs|
  }

  ghost predicate Agreement(s: System) {
    && OneOngoing(s.docs) && NotesInRange(s)
    && forall id :: id in s.monitors ==> StatusAgrees(s, id) && EventsAgree(s, id)
  }

  /** Events do not depend on later incidents, nor on anything in a document but its monitor. */
  lemma {:induction false} EventsStable(notes: seq<Note>, docs: seq<Incident>, docs': seq<Incident>, id: MonitorId)
    requires |docs| <= |docs'| && forall i :: 0 <= i < |docs| ==> docs'[i].monitorId == docs[i].monitorId
    requires forall k :: 0 <= k < |notes| ==> notes[k].incident < |docs|
    ensures EventsOf(notes, docs', id) == EventsOf(notes, docs, id)
  {
    if notes != [] { EventsStable(notes[..|notes| - 1], docs, docs', id); }
  }

  lemma EventsSnoc(notes: seq<Note>, n: Note, docs: seq<Incident>, id: MonitorId)
    requires n.incident < |docs|
    ensures EventsOf(notes + [n], docs, id)
            == EventsOf(notes, docs, id) + if docs[n.incident].monitorId == id then [n.event] else []
  {
    assert (notes + [n])[..|notes|] == notes;
  }

  /** Whether a lookup succeeds is a fact about which documents are ongoing, not about their order. */
  lemma FoundIff(docs: seq<Incident>, id: MonitorId)
    ensures FindOngoing(docs, id).Some? <==> exists i :: 0 <= i < |docs| && IsOngoing(docs[i], id)
  {
  }

  lemma OpenedEffect(docs: seq<Incident>, notes: seq<Note>, id: MonitorId, c: Check, k: MonitorId)
    requires OneOngoing(docs) && FindOngoing(docs, id).None?
    requires forall j :: 0 <= j < |notes| ==> notes[j].incident < |docs|
    ensures var (docs', notes') := Opened(docs, notes, id, c);
            && OneOngoing(docs')
            && (forall j :: 0 <= j < |notes'| ==> notes'[j].incident < |docs'|)
            && (FindOngoing(docs', k).Some? <==> k == id || FindOngoing(docs, k).Some?)
            && EventsOf(notes', docs', k)
               == EventsOf(notes, docs, k) + (if k == id && c.fault != OwnerNotFound then [OPENED] else [])
            && docs' == docs + [Incident(id, ONGOING, c.incidentNow, None, 0, c.reason)]
            && notes' == notes + (if c.fault != OwnerNotFound then [Note(OPENED, |docs|)] else [])
  {
    var (docs', notes') := Opened(docs, notes, id, c);
    EventsStable(notes, docs, docs', k);
    if c.fault != OwnerNotFound { EventsSnoc(notes, Note(OPENED, |docs|), docs', k); }
    else { assert notes' == notes; }
    assert docs'[|docs|] == NewIncident(id, c.incidentNow, c.reason);
    assert forall i :: 0 <= i < |docs| ==> docs'[i] == docs[i];
    FoundIff(docs, k);
    FoundIff(docs', k);
  }

  /** Replacing the ongoing incident by a resolved one affects nobody else. */
  lemma ResolvedOnly(docs: seq<Incident>, docs': seq<Incident>, id: MonitorId, found: nat, k: MonitorId)
    requires OneOngoing(docs) && found < |docs| == |docs'| && IsOngoing(docs[found], id)
             && docs'[found].status == RESOLVED
    requires forall i :: 0 <= i < |docs| && i != found ==> docs'[i] == docs[i]
    ensures OneOngoing(docs')
    ensures FindOngoing(docs', k).Some? <==> k != id && FindOngoing(docs, k).Some?
  {
    FoundIff(docs, k);
    FoundIff(docs', k);
  }

  predicate AnnouncesClose(fault: Fault) {
    fault != OwnerNotFound && fault != IncidentSaveFails
  }

  /** Only document i has changed: the ongoing incident is resolved, and timed unless its save failed. */
  predicate IsClosedAt(docs: seq<Incident>, docs': seq<Incident>, i: nat, id: MonitorId, c: Check) {
    && i < |docs| == |docs'| && IsOngoing(docs[i], id)
    && docs' == docs[i := docs[i].(status := RESOLVED, endTime := Some(c.incidentNow), duration := docs'[i].duration)]
    && (if c.fault == IncidentSaveFails then docs'[i].duration == docs[i].duration
        else 1000 * docs'[i].duration <= c.incidentNow - docs[i].startTime < 1000 * (docs'[i].duration + 1))
  }

  lemma {:induction false} ClosedEffect(docs: seq<Incident>, notes: seq<Note>, id: MonitorId, c: Check, k: MonitorId)
    requires OneOngoing(docs) && FindOngoing(docs, id).Some?
    requires forall j :: 0 <= j < |notes| ==> notes[j].incident < |docs|
    ensures var (docs', notes') := Closed(docs, notes, id, c);
            && OneOngoing(docs')
            && (forall j :: 0 <= j < |notes'| ==> notes'[j].incident < |docs'|)
            && (FindOngoing(docs', k).Some? <==> k != id && FindOngoing(docs, k).Some?)
            && EventsOf(notes', docs', k)
               == EventsOf(notes, docs, k) + (if k == id && AnnouncesClose(c.fault) then [CLOSED] else [])
            && exists i :: IsClosedAt(docs, docs', i, id, c)
                           && notes' == notes + (if AnnouncesClose(c.fault) then [Note(CLOSED, i)] else [])
  {
    var (docs', notes') := Closed(docs, notes, id, c);
    var found := FindOngoing(docs, id).value;
    EventsStable(notes, docs, docs', k);
    if AnnouncesClose(c.fault) { EventsSnoc(notes, Note(CLOSED, found), docs', k); }
    else { assert notes' == notes; }
    ResolvedOnly(docs, docs', id, found, k);
    SecondsSpec(docs[found].startTime, c.incidentNow);
    assert IsClosedAt(docs, docs', found, id, c);
  }

  /** What a fault-free transition does to monitor k, whichever monitor was checked. */
  lemma IncidentEffectOn(docs: seq<Incident>, notes: seq<Note>, id: MonitorId, t: Transition, c: Check, k: MonitorId)
    requires OneOngoing(docs) && c.fault == NoFault
    requires forall j :: 0 <= j < |notes| ==> notes[j].incident < |docs|
    requires t == ShouldOpen ==> FindOngoing(docs, id).None?
    requires t == ShouldClose ==> FindOngoing(docs, id).Some?
    ensures var (docs', notes') := IncidentEffect(docs, notes, id, t, c);
            && OneOngoing(docs')
            && (forall j :: 0 <= j < |notes'| ==> notes'[j].incident < |docs'|)
            && (FindOngoing(docs', k).Some? <==>
                  if k == id && t != Stay then t == ShouldOpen else FindOngoing(docs, k).Some?)
            && EventsOf(notes', docs', k) == EventsOf(notes, docs, k) + if k == id then EventOf(t) else []
  {
    assert EventsOf(notes, docs, k) + [] == EventsOf(notes, docs, k);
    if t == ShouldOpen {
      OpenedEffect(docs, notes, id, c, k);
      assert IncidentEffect(docs, notes, id, t, c) == Opened(docs, notes, id, c);
    } else if t == ShouldClose {
      ClosedEffect(docs, notes, id, c, k);
      assert IncidentEffect(docs, notes, id, t, c) == Closed(docs, notes, id, c);
    }
  }

  lemma AlternatesSnoc(events: seq<Event>, e: Event)
    requires Alternates(events) && (e == OPENED <==> |events| % 2 == 0)
    ensures Alternates(events + [e])
  {
  }

  /** One transition flips the status and adds the matching event; no transition changes neither. */
  lemma TransitionAlternates(events: seq<Event>, before: Health, t: Transition)
    requires Alternates(events) && (before == DOWN <==> |events| % 2 == 1)
    requires (t == ShouldOpen ==> before == UP) && (t == ShouldClose ==> before == DOWN)
    ensures var events' := events + EventOf(t);
            var after := if t == ShouldOpen then DOWN else if t == ShouldClose then UP else before;
            Alternates(events') && (after == DOWN <==> |events'| % 2 == 1)
  {
    if t == Stay {
      assert events + [] == events;
    } else {
      AlternatesSnoc(events, EventOf(t)[0]);
    }
  }

  function EventOf(t: Transition): seq<Event> {
    match t
    case Stay => []
    case ShouldOpen => [OPENED]
    case ShouldClose => [CLOSED]
  }

  /** The checked monitor agrees afterwards. */
  lemma CheckedAgrees(cfg: B.Config, s: System, id: MonitorId, c: Check)
    requires Agreement(s) && c.fault == NoFault && id in s.monitors
    requires B.EvaluateBreaker(s.monitors[id].breaker, c.tickNow).allowed
    ensures var s' := CheckEffect(cfg, s, id, c);
            OneOngoing(s'.docs) && NotesInRange(s') && StatusAgrees(s', id) && EventsAgree(s', id)
  {
    var m, t := s.monitors[id], TransitionOf(s.monitors[id], c.up);
    assert StatusAgrees(s, id) && EventsAgree(s, id);
    IncidentEffectOn(s.docs, s.notes, id, t, c, id);
    TransitionAlternates(EventsOf(s.notes, s.docs, id), m.flap.status, t);
    StatusAfter(cfg, m, B.EvaluateBreaker(m.breaker, c.tickNow), c.up, c.now);
  }

  lemma StatusAfter(cfg: B.Config, m: Monitor, verdict: B.Verdict, up: bool, now: int)
    ensures ApplyUpdate(m, BuildUpdate(cfg, m, verdict, up, now)).flap.status
            == match TransitionOf(m, up) case ShouldOpen => DOWN case ShouldClose => UP case Stay => m.flap.status
  {
  }

  /** Every other monitor is untouched. */
  lemma OthersAgree(cfg: B.Config, s: System, id: MonitorId, c: Check, k: MonitorId)
    requires Agreement(s) && c.fault == NoFault && id in s.monitors && k in s.monitors && k != id
    ensures var s' := CheckEffect(cfg, s, id, c);
            k in s'.monitors && StatusAgrees(s', k) && EventsAgree(s', k)
  {
    assert StatusAgrees(s, id) && StatusAgrees(s, k) && EventsAgree(s, k);
    IncidentEffectOn(s.docs, s.notes, id, TransitionOf(s.monitors[id], c.up), c, k);
    assert EventsOf(s.notes, s.docs, k) + [] == EventsOf(s.notes, s.docs, k);
  }

  /** A fault-free check keeps status, incidents and announcements in agreement, for every monitor. */
  lemma CheckKeepsAgreement(cfg: B.Config, s: System, id: MonitorId, c: Check)
    requires Agreement(s) && c.fault == NoFault
    ensures Agreement(CheckEffect(cfg, s, id, c))
  {
    var s' := CheckEffect(cfg, s, id, c);
    if id in s.monitors && B.EvaluateBreaker(s.monitors[id].breaker, c.tickNow).allowed {
      CheckedAgrees(cfg, s, id, c);
      forall k | k in s'.monitors ensures StatusAgrees(s', k) && EventsAgree(s', k) {
        if k != id { OthersAgree(cfg, s, id, c, k); }
      }
    }
  }

  /**
   * After every fault-free run of one scheduler, with monitors created, deleted and
   * re-configured at will between checks, a monitor is DOWN iff it has exactly one ONGOING incident, and its
   * announcements strictly alternate, beginning with OPENED.
   */
  lemma {:induction false} AgreementOverRuns(cfg: B.Config, s: System, ops: seq<Op>)
    requires Agreement(s)
    requires forall k :: 0 <= k < |ops| && ops[k].Perform? ==> ops[k].check.fault == NoFault
    ensures var s' := Run(cfg, s, ops);
            && Agreement(s')
            && forall id :: id in s'.monitors ==>
                 OngoingCount(s'.docs, id) == if s'.monitors[id].flap.status == DOWN then 1 else 0
  {
    if ops != [] {
      var n := |ops| - 1;
      AgreementOverRuns(cfg, s, ops[..n]);
      var mid := Run(cfg, s, ops[..n]);
      if ops[n].Perform? {
        CheckKeepsAgreement(cfg, mid, ops[n].id, ops[n].check);
      } else {
        OwnerKeepsAgreement(cfg, mid, ops[n]);
      }
    }
    var s' := Run(cfg, s, ops);
    forall id | id in s'.monitors
      ensures OngoingCount(s'.docs, id) == if s'.monitors[id].flap.status == DOWN then 1 else 0
    {
      assert StatusAgrees(s', id);
      CountIsZeroOrOne(s'.docs, id);
    }
  }

  /** Nothing the owner does disturbs the agreement; a new monitor starts in it. */
  lemma OwnerKeepsAgreement(cfg: B.Config, s: System, op: Op)
    requires Agreement(s) && !op.Perform?
    ensures Agreement(Step(cfg, s, op))
  {
    var s' := Step(cfg, s, op);
    forall k | k in s'.monitors ensures StatusAgrees(s', k) && EventsAgree(s', k) {
      if k in s.monitors {
        assert StatusAgrees(s, k) && EventsAgree(s, k);
      } else {
        NoEvents(s.notes, s.docs, k);
      }
    }
  }

  /** Nothing was ever announced about a monitor that never had an incident. */
  lemma {:induction false} NoEvents(notes: seq<Note>, docs: seq<Incident>, id: MonitorId)
    requires forall i :: 0 <= i < |docs| ==> docs[i].monitorId != id
    ensures EventsOf(notes, docs, id) == []
  {
    if notes != [] { NoEvents(notes[..|notes| - 1], docs, id); }
  }

  /**
   * With faults: the status still agrees with the incidents after a check exactly when the
   * check made no transition, or no fault hit between its status write and its incident call.
   */
  lemma AgreementUnderFaults(cfg: B.Config, s: System, id: MonitorId, c: Check)
    requires OneOngoing(s.docs) && NotesInRange(s) && id in s.monitors && StatusAgrees(s, id)
    requires B.EvaluateBreaker(s.monitors[id].breaker, c.tickNow).allowed
    ensures var s' := CheckEffect(cfg, s, id, c);
            StatusAgrees(s', id) <==>
            TransitionOf(s.monitors[id], c.up) == Stay || c.fault == StatusWriteFails || ReachesIncident(c.fault)
  {
    if ReachesIncident(c.fault) {
      match TransitionOf(s.monitors[id], c.up)
      case Stay =>
      case ShouldOpen => OpenedEffect(s.docs, s.notes, id, c, id);
      case ShouldClose => ClosedEffect(s.docs, s.notes, id, c, id);
    }
  }

  /** All checks of this target have the same result, and it stays stored. */
  ghost predicate KeepsResult(ops: seq<Op>, id: MonitorId, up: bool) {
    forall k :: 0 <= k < |ops| && ops[k].id == id ==> !ops[k].Delete? && (ops[k].Perform? ==> ops[k].check.up == up)
  }

  /** The status says the opposite of the incidents, as one lost transition leaves a monitor. */
  ghost predicate Disagrees(s: System, id: MonitorId, status: Health, events: seq<Event>) {
    && OneOngoing(s.docs) && NotesInRange(s)
    && id in s.monitors && s.monitors[id].flap.status == status
    && (FindOngoing(s.docs, id).Some? <==> status == UP) && EventsOf(s.notes, s.docs, id) == events
  }

  predicate LosesTransition(fault: Fault) {
    fault == LogWriteFails || fault == IncidentCallFails
  }

  /**
   * A lost opening is never retried.  Once a check has confirmed DOWN but lost its incident
   * call, no later check opens the incident or announces it while the target keeps failing,
   * whatever happens to other monitors, because opening requires a confirmed UP status.
   */
  lemma LostOpeningNotRetried(cfg: B.Config, s: System, id: MonitorId, c: Check, ops: seq<Op>)
    requires OneOngoing(s.docs) && NotesInRange(s) && id in s.monitors && StatusAgrees(s, id)
    requires B.EvaluateBreaker(s.monitors[id].breaker, c.tickNow).allowed
    requires TransitionOf(s.monitors[id], c.up) == ShouldOpen && LosesTransition(c.fault)
    requires KeepsResult(ops, id, false)
    ensures var s' := Run(cfg, CheckEffect(cfg, s, id, c), ops);
            && id in s'.monitors && s'.monitors[id].flap.status == DOWN
            && FindOngoing(s'.docs, id).None?
            && EventsOf(s'.notes, s'.docs, id) == EventsOf(s.notes, s.docs, id)
  {
    StaysDisagreeing(cfg, CheckEffect(cfg, s, id, c), id, DOWN, EventsOf(s.notes, s.docs, id), ops);
  }

  /** Nor is a lost closing: the incident stays ONGOING under an UP monitor while the target keeps answering. */
  lemma LostClosingNotRetried(cfg: B.Config, s: System, id: MonitorId, c: Check, ops: seq<Op>)
    requires OneOngoing(s.docs) && NotesInRange(s) && id in s.monitors && StatusAgrees(s, id)
    requires B.EvaluateBreaker(s.monitors[id].breaker, c.tickNow).allowed
    requires TransitionOf(s.monitors[id], c.up) == ShouldClose && LosesTransition(c.fault)
    requires KeepsResult(ops, id, true)
    ensures var s' := Run(cfg, CheckEffect(cfg, s, id, c), ops);
            && id in s'.monitors && s'.monitors[id].flap.status == UP
            && FindOngoing(s'.docs, id).Some?
            && EventsOf(s'.notes, s'.docs, id) == EventsOf(s.notes, s.docs, id)
  {
    StaysDisagreeing(cfg, CheckEffect(cfg, s, id, c), id, UP, EventsOf(s.notes, s.docs, id), ops);
  }

  lemma {:induction false} StaysDisagreeing(cfg: B.Config, s: System, id: MonitorId, status: Health, events: seq<Event>,
                                            ops: seq<Op>)
    requires Disagrees(s, id, status, events) && KeepsResult(ops, id, status == UP)
    ensures Disagrees(Run(cfg, s, ops), id, status, events)
  {
    if ops != [] {
      var n := |ops| - 1;
      StaysDisagreeing(cfg, s, id, status, events, ops[..n]);
      var mid := Run(cfg, s, ops[..n]);
      if ops[n].Perform? && ops[n].id != id {
        OthersLeaveAlone(cfg, mid, ops[n].id, ops[n].check, id);
      }
    }
  }

  /**
   * What ends it is exactly the next recorded transition, the opposite one.  It finds the
   * incidents as it would leave them, so it changes and announces nothing, and status,
   * incidents and announcements agree again.
   */
  lemma DisagreementEnds(cfg: B.Config, s: System, id: MonitorId, c: Check, events: seq<Event>)
    requires id in s.monitors && Disagrees(s, id, s.monitors[id].flap.status, events)
    requires Alternates(events) && (FindOngoing(s.docs, id).Some? <==> |events| % 2 == 1)
    requires B.EvaluateBreaker(s.monitors[id].breaker, c.tickNow).allowed
    ensures var s' := CheckEffect(cfg, s, id, c);
            && (StatusAgrees(s', id) <==> TransitionOf(s.monitors[id], c.up) != Stay && c.fault != StatusWriteFails)
            && (StatusAgrees(s', id) ==> EventsAgree(s', id))
            && s'.docs == s.docs && s'.notes == s.notes
  {
  }

  /** A check of another monitor, whatever goes wrong in it, leaves this one's incidents and announcements alone. */
  lemma OthersLeaveAlone(cfg: B.Config, s: System, id: MonitorId, c: Check, k: MonitorId)
    requires OneOngoing(s.docs) && NotesInRange(s) && k != id
    ensures var s' := CheckEffect(cfg, s, id, c);
            && OneOngoing(s'.docs) && NotesInRange(s')
            && (k in s'.monitors <==> k in s.monitors) && (k in s.monitors ==> s'.monitors[k] == s.monitors[k])
            && (FindOngoing(s'.docs, k).Some? <==> FindOngoing(s.docs, k).Some?)
            && EventsOf(s'.notes, s'.docs, k) == EventsOf(s.notes, s.docs, k)
  {
    if id in s.monitors {
      EffectOnOthers(s.docs, s.notes, id, TransitionOf(s.monitors[id], c.up), c, k);
    }
  }

  lemma EffectOnOthers(docs: seq<Incident>, notes: seq<Note>, id: MonitorId, t: Transition, c: Check, k: MonitorId)
    requires OneOngoing(docs) && k != id && forall j :: 0 <= j < |notes| ==> notes[j].incident < |docs|
    ensures var (docs', notes') := IncidentEffect(docs, notes, id, t, c);
            && OneOngoing(docs')
            && (forall j :: 0 <= j < |notes'| ==> notes'[j].incident < |docs'|)
            && (FindOngoing(docs', k).Some? <==> FindOngoing(docs, k).Some?)
            && EventsOf(notes', docs', k) == EventsOf(notes, docs, k)
  {
    if ReachesIncident(c.fault) && t == ShouldOpen && FindOngoing(docs, id).None? {
      OpenedEffect(docs, notes, id, c, k);
    } else if ReachesIncident(c.fault) && t == ShouldClose && FindOngoing(docs, id).Some? {
      ClosedEffect(docs, notes, id, c, k);
    }
  }

  ghost predicate BreakersInv(cfg: B.Config, s: System) {
    forall id :: id in s.monitors ==> BreakerInv(cfg, s.monitors[id])
  }

  lemma StepKeepsBreakers(cfg: B.Config, s: System, op: Op)
    requires BreakersInv(cfg, s)
    ensures BreakersInv(cfg, Step(cfg, s, op))
  {
    var s' := Step(cfg, s, op);
    forall id | id in s'.monitors ensures BreakerInv(cfg, s'.monitors[id]) {
      assert id in s.monitors ==> BreakerInv(cfg, s.monitors[id]);
      if op.Perform? && id == op.id && B.EvaluateBreaker(s.monitors[id].breaker, op.check.tickNow).allowed {
        CheckKeepsBreakerInv(cfg, s.monitors[id], op.check.tickNow, op.check.up, op.check.now);
      }
    }
  }

  /** Over every run, faults and owner activity included, each breaker keeps its invariant. */
  lemma {:induction false} BreakersOverRuns(cfg: B.Config, s: System, ops: seq<Op>)
    requires BreakersInv(cfg, s)
    ensures BreakersInv(cfg, Run(cfg, s, ops))
  {
    if ops != [] {
      BreakersOverRuns(cfg, s, ops[..|ops| - 1]);
      StepKeepsBreakers(cfg, Run(cfg, s, ops[..|ops| - 1]), ops[|ops| - 1]);
    }
  }

  ghost predicate DurationsInv(docs: seq<Incident>, clock: int) {
    forall i :: 0 <= i < |docs| ==> docs[i].startTime <= clock && 0 <= docs[i].duration
  }

  /** One scheduler on a clock that never goes back stores no negative duration. */
  lemma {:induction false} SequentialDurations(cfg: B.Config, s: System, ops: seq<Op>, since: int, clock: int)
    requires DurationsInv(s.docs, since) && since <= clock
    requires forall k :: 0 <= k < |ops| && ops[k].Perform? ==> since <= ops[k].check.incidentNow <= clock
    requires forall j, k :: 0 <= j < k < |ops| && ops[j].Perform? && ops[k].Perform?
                            ==> ops[j].check.incidentNow <= ops[k].check.incidentNow
    ensures DurationsInv(Run(cfg, s, ops).docs, clock)
  {
    if ops != [] {
      var n := |ops| - 1;
      SequentialDurations(cfg, s, ops[..n], since, if ops[n].Perform? then ops[n].check.incidentNow else clock);
    }
  }

  // ---------------------------------------------------------------- one monitor over its history

  /** What one check leaves in its monitor. */
  function CheckedMonitor(cfg: B.Config, m: Monitor, c: Check): Monitor {
    if c.fault == StatusWriteFails || !B.EvaluateBreaker(m.breaker, c.tickNow).allowed then m
    else ApplyUpdate(m, BuildUpdate(cfg, m, B.EvaluateBreaker(m.breaker, c.tickNow), c.up, c.now))
  }

  function MonitorAfter(cfg: B.Config, m: Monitor, checks: seq<Check>): Monitor {
    if checks == [] then m
    else CheckedMonitor(cfg, MonitorAfter(cfg, m, checks[..|checks| - 1]), checks[|checks| - 1])
  }

  /** Every one of these checks was really performed and recorded. */
  ghost predicate AllPerformed(cfg: B.Config, m: Monitor, checks: seq<Check>) {
    forall k :: 0 <= k < |checks| ==>
      && checks[k].fault != StatusWriteFails
      && B.EvaluateBreaker(MonitorAfter(cfg, m, checks[..k]).breaker, checks[k].tickNow).allowed
  }

  function Results(checks: seq<Check>): seq<bool> {
    seq(|checks|, k requires 0 <= k < |checks| => checks[k].up)
  }

  function Attempts(checks: seq<Check>): seq<B.Attempt> {
    seq(|checks|, k requires 0 <= k < |checks| => B.Attempt(checks[k].tickNow, checks[k].now))
  }

  lemma PerformedPrefix(cfg: B.Config, m: Monitor, checks: seq<Check>, n: nat)
    requires AllPerformed(cfg, m, checks) && n <= |checks|
    ensures AllPerformed(cfg, m, checks[..n])
  {
    forall k | 0 <= k < n
      ensures B.EvaluateBreaker(MonitorAfter(cfg, m, checks[..n][..k]).breaker, checks[..n][k].tickNow).allowed
    {
      assert checks[..n][..k] == checks[..k];
    }
  }

  /**
   * The stored counters and status of a new monitor are those of its result history, whatever the
   * breaker skipped in between.
   */
  lemma {:induction false} FlapFollowsHistory(cfg: B.Config, m: Monitor, checks: seq<Check>)
    requires AllPerformed(cfg, m, checks) && m.flap == FlapDetection.Fresh
    ensures var m' := MonitorAfter(cfg, m, checks);
            && m'.failureThreshold == m.failureThreshold && m'.successThreshold == m.successThreshold
            && m'.flap == RunFlap(Results(checks), FailureThreshold(m), SuccessThreshold(m))
  {
    if checks != [] {
      var n := |checks| - 1;
      PerformedPrefix(cfg, m, checks, n);
      FlapFollowsHistory(cfg, m, checks[..n]);
      assert Results(checks)[..n] == Results(checks[..n]);
      SingleWriterUpdate(cfg, MonitorAfter(cfg, m, checks[..n]), checks[n].tickNow, checks[n].up, checks[n].now);
    }
  }

  /** So the stored status is DOWN iff the history confirms it. */
  lemma StoredStatusMatchesHistory(cfg: B.Config, m: Monitor, checks: seq<Check>)
    requires AllPerformed(cfg, m, checks) && m.flap == FlapDetection.Fresh
    ensures MonitorAfter(cfg, m, checks).flap.status == DOWN
            <==> IsDown(Results(checks), FailureThreshold(m), SuccessThreshold(m))
  {
    FlapFollowsHistory(cfg, m, checks);
    StatusRefinesHistory(Results(checks), FailureThreshold(m), SuccessThreshold(m));
  }

  /** On a target that never recovers the stored breaker runs through the dead-target cycle. */
  lemma {:induction false} BreakerFollowsDeadTarget(cfg: B.Config, m: Monitor, checks: seq<Check>)
    requires AllPerformed(cfg, m, checks) && m.flap == FlapDetection.Fresh && m.breaker == B.Fresh
    requires forall k :: 0 <= k < |checks| ==> !checks[k].up
    ensures var m' := MonitorAfter(cfg, m, checks);
            m'.breaker == B.FailRun(cfg, Attempts(checks)) && m'.flap.failures == |checks|
  {
    if checks != [] {
      var n := |checks| - 1;
      PerformedPrefix(cfg, m, checks, n);
      BreakerFollowsDeadTarget(cfg, m, checks[..n]);
      assert Attempts(checks)[..n] == Attempts(checks[..n]);
      SingleWriterUpdate(cfg, MonitorAfter(cfg, m, checks[..n]), checks[n].tickNow, checks[n].up, checks[n].now);
    }
  }

  /** Failing checks on a forward clock, each ending before the next one's tick. */
  ghost predicate DeadTarget(cfg: B.Config, m: Monitor, checks: seq<Check>) {
    && AllPerformed(cfg, m, checks) && m.flap == FlapDetection.Fresh && m.breaker == B.Fresh
    && (forall i :: 0 <= i < |checks| ==> !checks[i].up && checks[i].tickNow <= checks[i].now)
    && (forall i, j :: 0 <= i < j < |checks| ==> checks[i].now <= checks[j].tickNow)
  }

  lemma AttemptAllowed(cfg: B.Config, m: Monitor, checks: seq<Check>, i: nat)
    requires DeadTarget(cfg, m, checks) && i < |checks|
    ensures B.EvaluateBreaker(B.FailRun(cfg, Attempts(checks)[..i]), checks[i].tickNow).allowed
  {
    PerformedPrefix(cfg, m, checks, i);
    BreakerFollowsDeadTarget(cfg, m, checks[..i]);
    assert Attempts(checks)[..i] == Attempts(checks[..i]);
  }

  lemma DeadTargetAdmissible(cfg: B.Config, m: Monitor, checks: seq<Check>)
    requires DeadTarget(cfg, m, checks)
    ensures B.Admissible(cfg, Attempts(checks))
  {
    forall i | 0 <= i < |checks|
      ensures B.EvaluateBreaker(B.FailRun(cfg, Attempts(checks)[..i]), Attempts(checks)[i].evaluatedAt).allowed
    {
      AttemptAllowed(cfg, m, checks, i);
    }
  }

  lemma CooldownsBetweenChecks(cfg: B.Config, checks: seq<Check>, k: nat)
    requires B.Admissible(cfg, Attempts(checks)) && 1 <= k && B.OpenedBy(cfg, k) + 1 < |checks|
    ensures checks[B.OpenedBy(cfg, 1)].now + B.CooldownSum(cfg, k) <= checks[B.OpenedBy(cfg, k) + 1].tickNow
  {
    B.DeadTargetLoad(cfg, Attempts(checks), k);
  }

  /** k openings and one more probe of a dead target take at least the k cooldowns, as stored. */
  lemma DeadTargetIsSpared(cfg: B.Config, m: Monitor, checks: seq<Check>, k: nat)
    requires DeadTarget(cfg, m, checks) && 1 <= k && B.OpenedBy(cfg, k) + 1 < |checks|
    ensures checks[B.OpenedBy(cfg, 1)].now + B.CooldownSum(cfg, k) <= checks[B.OpenedBy(cfg, k) + 1].tickNow
  {
    DeadTargetAdmissible(cfg, m, checks);
    CooldownsBetweenChecks(cfg, checks, k);
  }
}
