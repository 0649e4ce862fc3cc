/**
 * Incident lifecycle: the collection with its partial unique index (at most one ONGOING
 * incident per monitor), the two operations of incident.service.js, and the protocol they
 * follow when any number of callers interleave between database calls.
 *
 * Incidents are never deleted, so an incident's id is its position in the collection.
 */
module Incidents {
  import opened Common

  type MonitorId = nat

  datatype Status = ONGOING | RESOLVED

  datatype Incident = Incident(monitorId: MonitorId, status: Status, startTime: int, endTime: Option<int>,
                               duration: int, reason: string)

  datatype Event = OPENED | CLOSED

  datatype Note = Note(event: Event, incident: nat)

  // ---------------------------------------------------------------- the collection

  predicate IsOngoing(i: Incident, m: MonitorId) {
    i.monitorId == m && i.status == ONGOING
  }

  /** findOne({ monitorId, status: ONGOING }). */
  function FindOngoing(docs: seq<Incident>, m: MonitorId): (r: Option<nat>)
    ensures r.Some? ==> r.value < |docs| && IsOngoing(docs[r.value], m)
    ensures r.None? ==> forall i :: 0 <= i < |docs| ==> !IsOngoing(docs[i], m)
  {
    if docs == [] then None
    else if IsOngoing(docs[|docs| - 1], m) then Some(|docs| - 1)
    else FindOngoing(docs[..|docs| - 1], m)
  }

  /** The partial unique index refuses a second ONGOING incident with the duplicate-key error. */
  predicate IndexAdmits(docs: seq<Incident>, i: Incident) {
    i.status == ONGOING ==> FindOngoing(docs, i.monitorId).None?
  }

  function NewIncident(m: MonitorId, startTime: int, reason: string): Incident {
    Incident(m, ONGOING, startTime, None, 0, reason)
  }

  /** The atomic half of closing: ONGOING to RESOLVED with an end time. */
  function Resolve(docs: seq<Incident>, id: nat, endTime: int): seq<Incident>
    requires id < |docs|
  {
    docs[id := docs[id].(status := RESOLVED, endTime := Some(endTime))]
  }

  function WholeSeconds(fromMs: int, toMs: int): int {
    (toMs - fromMs) / 1000
  }

  /** Whole seconds between two readings in milliseconds, rounded down. */
  lemma SecondsSpec(fromMs: int, toMs: int)
    ensures var seconds := WholeSeconds(fromMs, toMs); 1000 * seconds <= toMs - fromMs < 1000 * (seconds + 1)
  {
  }

  /** What the pre-save hook stores: it recomputes the duration whenever both times are set. */
  function HookDuration(i: Incident): int {
    if i.endTime.Some? then WholeSeconds(i.startTime, i.endTime.value) else i.duration
  }

  function Saved(docs: seq<Incident>, id: nat): seq<Incident>
    requires id < |docs|
  {
    docs[id := docs[id].(duration := HookDuration(docs[id]))]
  }

  function OngoingCount(docs: seq<Incident>, m: MonitorId): nat {
    if docs == [] then 0
    else OngoingCount(docs[..|docs| - 1], m) + if IsOngoing(docs[|docs| - 1], m) then 1 else 0
  }

  /** What the unique index guarantees about the stored documents. */
  ghost predicate OneOngoing(docs: seq<Incident>) {
    forall i, j :: 0 <= i < j < |docs| && docs[i].status == ONGOING && docs[j].status == ONGOING
                   ==> docs[i].monitorId != docs[j].monitorId
  }

  // ---------------------------------------------------------------- the service, one caller

  class IncidentCollection {
    var docs: seq<Incident>

    constructor ()
      ensures docs == []
    {
      docs := [];
    }

    /** An insert that honours the unique index. */
    method Insert(i: Incident) returns (accepted: bool)
      modifies this
      ensures accepted == IndexAdmits(old(docs), i)
      ensures docs == if accepted then old(docs) + [i] else old(docs)
    {
      accepted := IndexAdmits(docs, i);
      if accepted { docs := docs + [i]; }
    }
  }

  class NotifierRegistry {
    var dispatched: seq<Note>

    constructor ()
      ensures dispatched == []
    {
      dispatched := [];
    }
  }

  /** The in-memory incident a close works on before saving it. */
  class IncidentDocument {
    const startTime: int
    var endTime: Option<int>
    var duration: int

    constructor (i: Incident)
      ensures startTime == i.startTime && endTime == i.endTime && duration == i.duration
    {
      startTime, endTime, duration := i.startTime, i.endTime, i.duration;
    }

    /** The hook overwrites whatever duration was assigned before the save, without clamping it at zero. */
    method PreSave()
      modifies this`duration
      ensures endTime.Some? ==> 1000 * duration <= endTime.value - startTime < 1000 * (duration + 1)
      ensures endTime.Some? ==> duration == WholeSeconds(startTime, endTime.value)
      ensures endTime.None? ==> duration == old(duration)
    {
      if endTime.Some? {
        SecondsSpec(startTime, endTime.value);
        duration := WholeSeconds(startTime, endTime.value);
      }
    }
  }

  /**
   * An incident another writer inserts between an open call's find and its insert, closed
   * again before that call reads it if it has an end.
   */
  datatype Rival = Rival(incident: Incident, endsAt: Option<int>)

  /** The collection as the insert of an open call finds it. */
  function AfterRival(docs: seq<Incident>, m: MonitorId, rival: Option<Rival>): seq<Incident> {
    if rival.Some? && FindOngoing(docs, m).None? then docs + [rival.value.incident] else docs
  }

  /** The call found nothing to open, and the rival was faster. */
  predicate LosesRace(docs: seq<Incident>, m: MonitorId, rival: Option<Rival>) {
    FindOngoing(docs, m).None? && FindOngoing(AfterRival(docs, m, rival), m).Some?
  }

  /** Once the only ONGOING incident is over there is none. */
  lemma OnlyTheRivals(docs: seq<Incident>, m: MonitorId, endTime: int)
    requires docs != [] && IsOngoing(docs[|docs| - 1], m) && FindOngoing(docs[..|docs| - 1], m).None?
    ensures FindOngoing(docs, m) == Some(|docs| - 1) && FindOngoing(Resolve(docs, |docs| - 1, endTime), m).None?
  {
    assert Resolve(docs, |docs| - 1, endTime)[..|docs| - 1] == docs[..|docs| - 1];
  }

  class IncidentService {
    const incidents: IncidentCollection
    const registry: NotifierRegistry

    constructor (incidents: IncidentCollection, registry: NotifierRegistry)
      ensures this.incidents == incidents && this.registry == registry
    {
      this.incidents, this.registry := incidents, registry;
    }

    /**
     * Only the call that really creates the incident reports `created` and notifies.  A call
     * that lost the race returns the rival's incident, or none if that is over already.
     */
    method OpenIncident(m: MonitorId, reason: string, startTime: int, ownerFound: bool, rival: Option<Rival>)
      returns (incident: Option<nat>, created: bool)
      requires rival.Some? ==> IndexAdmits(incidents.docs, rival.value.incident)
      modifies incidents, registry
      ensures var before := AfterRival(old(incidents.docs), m, rival);
              var lost := LosesRace(old(incidents.docs), m, rival);
              && (created <==> FindOngoing(before, m).None?)
              && incidents.docs == (if created then before + [NewIncident(m, startTime, reason)]
                                    else if lost && rival.value.endsAt.Some? then
                                      Resolve(before, FindOngoing(before, m).value, rival.value.endsAt.value)
                                    else before)
              && (incident.None? <==> lost && rival.value.endsAt.Some?)
      ensures incident == FindOngoing(incidents.docs, m)
      ensures created ==>
                && incident == Some(|incidents.docs| - 1)
                && incidents.docs[incident.value] == Incident(m, ONGOING, startTime, None, 0, reason)
      ensures registry.dispatched == old(registry.dispatched)
                                     + if created && ownerFound then [Note(OPENED, incident.value)] else []
    {
      incident := FindOngoing(incidents.docs, m);
      if incident.Some? {
        created := false;
        return;
      }
      if rival.Some? {
        var _ := incidents.Insert(rival.value.incident);
      }
      created := incidents.Insert(NewIncident(m, startTime, reason));
      if !created {
        // Lost the race against the unique index: the other writer's incident is the canonical one.
        if rival.value.endsAt.Some? {
          OnlyTheRivals(incidents.docs, m, rival.value.endsAt.value);
          incidents.docs := Resolve(incidents.docs, |incidents.docs| - 1, rival.value.endsAt.value);
        }
        incident := FindOngoing(incidents.docs, m);
        return;
      }
      incident := Some(|incidents.docs| - 1);
      if ownerFound {
        registry.dispatched := registry.dispatched + [Note(OPENED, incident.value)];
      }
    }

    /**
     * `saveFails` says that the save after the atomic update throws.  The incident is resolved
     * by then, but its duration is not stored, nobody is notified and nothing is reported closed.
     */
    method CloseIncident(m: MonitorId, endTime: int, ownerFound: bool, saveFails: bool)
      returns (incident: Option<nat>, closed: bool, thrown: bool)
      modifies incidents, registry
      ensures incident == FindOngoing(old(incidents.docs), m)
      ensures thrown == (incident.Some? && saveFails) && closed == (incident.Some? && !saveFails)
      ensures incidents.docs == if incident.None? then old(incidents.docs)
                                else if thrown then Resolve(old(incidents.docs), incident.value, endTime)
                                else Saved(Resolve(old(incidents.docs), incident.value, endTime), incident.value)
      ensures incident.Some? ==>
                var before, after := old(incidents.docs)[incident.value], incidents.docs[incident.value];
                && before.monitorId == after.monitorId == m && before.status == ONGOING && after.status == RESOLVED
                && after.startTime == before.startTime && after.endTime == Some(endTime)
                && after.reason == before.reason
                && (closed ==> 1000 * after.duration <= endTime - after.startTime < 1000 * (after.duration + 1))
                && (thrown ==> after.duration == before.duration)
      ensures |incidents.docs| == |old(incidents.docs)|
              && forall i :: 0 <= i < |incidents.docs| && incident != Some(i) ==>
                               incidents.docs[i] == old(incidents.docs)[i]
      ensures registry.dispatched == old(registry.dispatched)
                                     + if closed && ownerFound then [Note(CLOSED, incident.value)] else []
    {
      incident := FindOngoing(incidents.docs, m);
      closed, thrown := false, false;
      if incident.None? { return; }
      var id := incident.value;
      incidents.docs := Resolve(incidents.docs, id, endTime);
      var document := new IncidentDocument(incidents.docs[id]);
      document.duration := Max(0, WholeSeconds(document.startTime, endTime));
      document.PreSave();
      if saveFails { return incident, false, true; }
      incidents.docs := incidents.docs[id := incidents.docs[id].(duration := document.duration)];
      closed := true;
      if ownerFound {
        registry.dispatched := registry.dispatched + [Note(CLOSED, id)];
      }
    }
  }

  // ---------------------------------------------------------------- the protocol, any number of callers

  /** Where a call stands between two database operations. */
  datatype Call =
    | OpenFind(monitorId: MonitorId, startTime: int)
    | OpenInsert(monitorId: MonitorId, startTime: int)
    | OpenNotify(id: nat)
    | CloseUpdate(monitorId: MonitorId, endTime: int)
    | CloseSave(id: nat)
    | CloseNotify(id: nat)

  /** `opens` and `closes` count, per monitor, the transitions made in the database, abandoned calls included. */
  datatype World = World(clock: int, docs: seq<Incident>, calls: map<nat, Call>,
                         opens: multiset<MonitorId>, closes: multiset<MonitorId>, dispatched: multiset<Note>)

  datatype Step =
    | Elapse(dt: nat)
    | BeginOpen(caller: nat, monitorId: MonitorId)
    | BeginClose(caller: nat, monitorId: MonitorId)
    | Proceed(caller: nat, ownerFound: bool)
    | Abandon(caller: nat)

  function Next(w: World, s: Step): World {
    match s
    case Elapse(dt) => w.(clock := w.clock + dt)
    case BeginOpen(c, m) => if c in w.calls then w else w.(calls := w.calls[c := OpenFind(m, w.clock)])
    case BeginClose(c, m) => if c in w.calls then w else w.(calls := w.calls[c := CloseUpdate(m, w.clock)])
    case Proceed(c, ownerFound) => if c in w.calls then Advance(w, c, ownerFound) else w
    case Abandon(c) => w.(calls := w.calls - {c})
  }

  /** One database operation or dispatch of one call. */
  function Advance(w: World, c: nat, ownerFound: bool): World
    requires c in w.calls
  {
    var done := w.calls - {c};
    match w.calls[c]
    case OpenFind(m, start) =>
      if FindOngoing(w.docs, m).Some? then w.(calls := done)
      else w.(calls := w.calls[c := OpenInsert(m, start)])
    case OpenInsert(m, start) =>
      var i := NewIncident(m, start, "");
      if IndexAdmits(w.docs, i) then
        w.(docs := w.docs + [i], opens := w.opens + multiset{m}, calls := w.calls[c := OpenNotify(|w.docs|)])
      else w.(calls := done)
    case OpenNotify(id) =>
      w.(calls := done, dispatched := if ownerFound then w.dispatched + multiset{Note(OPENED, id)} else w.dispatched)
    case CloseUpdate(m, end) =>
      var found := FindOngoing(w.docs, m);
      if found.Some? then
        w.(docs := Resolve(w.docs, found.value, end), closes := w.closes + multiset{m},
           calls := w.calls[c := CloseSave(found.value)])
      else w.(calls := done)
    case CloseSave(id) =>
      if id < |w.docs| then w.(docs := Saved(w.docs, id), calls := w.calls[c := CloseNotify(id)]) else w
    case CloseNotify(id) =>
      w.(calls := done, dispatched := if ownerFound then w.dispatched + multiset{Note(CLOSED, id)} else w.dispatched)
  }

  function Run(w: World, steps: seq<Step>): World {
    if steps == [] then w else Next(Run(w, steps[..|steps| - 1]), steps[|steps| - 1])
  }

  const Genesis := World(0, [], map[], multiset{}, multiset{}, multiset{})

  /** The notification a call still owes. */
  function Owes(call: Call): Option<Note> {
    match call
    case OpenNotify(id) => Some(Note(OPENED, id))
    case CloseSave(id) => Some(Note(CLOSED, id))
    case CloseNotify(id) => Some(Note(CLOSED, id))
    case _ => None
  }

  /** A note can exist only for a transition that has happened. */
  predicate Happened(docs: seq<Incident>, n: Note) {
    n.incident < |docs| && (n.event == CLOSED ==> docs[n.incident].status == RESOLVED)
  }

  ghost predicate NotesInv(w: World) {
    && (forall n :: n in w.dispatched ==> w.dispatched[n] == 1 && Happened(w.docs, n))
    && (forall c :: c in w.calls && Owes(w.calls[c]).Some? ==>
          Happened(w.docs, Owes(w.calls[c]).value) && Owes(w.calls[c]).value !in w.dispatched)
    && (forall c, d :: c in w.calls && d in w.calls && c != d && Owes(w.calls[c]).Some?
                       ==> Owes(w.calls[c]) != Owes(w.calls[d]))
  }

  ghost predicate CountInv(w: World) {
    OneOngoing(w.docs) && forall m :: w.opens[m] == w.closes[m] + OngoingCount(w.docs, m)
  }

  ghost predicate DurationInv(w: World) {
    forall i :: 0 <= i < |w.docs| ==>
      && (w.docs[i].status == RESOLVED <==> w.docs[i].endTime.Some?)
      && (w.docs[i].duration == 0 || (w.docs[i].endTime.Some? && w.docs[i].duration == HookDuration(w.docs[i])))
  }

  lemma {:induction false} CountZero(docs: seq<Incident>, m: MonitorId)
    requires FindOngoing(docs, m).None?
    ensures OngoingCount(docs, m) == 0
  {
    if docs != [] { CountZero(docs[..|docs| - 1], m); }
  }

  /** Under the unique index the count is 0 or 1, and it is 1 exactly when a lookup finds something. */
  lemma {:induction false} CountIsZeroOrOne(docs: seq<Incident>, m: MonitorId)
    requires OneOngoing(docs)
    ensures OngoingCount(docs, m) == if FindOngoing(docs, m).Some? then 1 else 0
  {
    if docs != [] {
      var rest := docs[..|docs| - 1];
      if IsOngoing(docs[|docs| - 1], m) {
        assert FindOngoing(rest, m).None?;
        CountZero(rest, m);
      } else {
        CountIsZeroOrOne(rest, m);
      }
    }
  }

  /** Replacing one document changes the count by what that document contributes. */
  lemma {:induction false} CountUpdate(docs: seq<Incident>, id: nat, i: Incident, m: MonitorId)
    requires id < |docs|
    ensures OngoingCount(docs[id := i], m) + (if IsOngoing(docs[id], m) then 1 else 0)
            == OngoingCount(docs, m) + (if IsOngoing(i, m) then 1 else 0)
  {
    var n := |docs| - 1;
    if id < n {
      CountUpdate(docs[..n], id, i, m);
      assert docs[id := i][..n] == docs[..n][id := i];
    } else {
      assert docs[id := i][..n] == docs[..n];
    }
  }

  /** Writing back one document without changing its owner or its being ONGOING leaves the counts alone. */
  lemma CountSaved(docs: seq<Incident>, id: nat, m: MonitorId)
    requires id < |docs|
    ensures OngoingCount(Saved(docs, id), m) == OngoingCount(docs, m)
  {
    CountUpdate(docs, id, Saved(docs, id)[id], m);
  }

  lemma CountInserted(docs: seq<Incident>, i: Incident, m: MonitorId)
    ensures OngoingCount(docs + [i], m) == OngoingCount(docs, m) + if IsOngoing(i, m) then 1 else 0
  {
    assert (docs + [i])[..|docs|] == docs;
  }

  lemma OpenInsertCounts(w: World, c: nat, ownerFound: bool)
    requires CountInv(w) && c in w.calls && w.calls[c].OpenInsert?
    ensures CountInv(Advance(w, c, ownerFound))
  {
    var i := NewIncident(w.calls[c].monitorId, w.calls[c].startTime, "");
    if IndexAdmits(w.docs, i) {
      var w' := Advance(w, c, ownerFound);
      forall m ensures w'.opens[m] == w'.closes[m] + OngoingCount(w'.docs, m) {
        CountInserted(w.docs, i, m);
      }
    }
  }

  lemma CloseUpdateCounts(w: World, c: nat, ownerFound: bool)
    requires CountInv(w) && c in w.calls && w.calls[c].CloseUpdate?
    ensures CountInv(Advance(w, c, ownerFound))
  {
    var found := FindOngoing(w.docs, w.calls[c].monitorId);
    if found.Some? {
      var w' := Advance(w, c, ownerFound);
      forall m ensures w'.opens[m] == w'.closes[m] + OngoingCount(w'.docs, m) {
        CountUpdate(w.docs, found.value, w'.docs[found.value], m);
      }
    }
  }

  lemma CloseSaveCounts(w: World, c: nat, ownerFound: bool)
    requires CountInv(w) && c in w.calls && w.calls[c].CloseSave?
    ensures CountInv(Advance(w, c, ownerFound))
  {
    var id := w.calls[c].id;
    if id < |w.docs| {
      var w' := Advance(w, c, ownerFound);
      forall m ensures w'.opens[m] == w'.closes[m] + OngoingCount(w'.docs, m) {
        CountSaved(w.docs, id, m);
      }
    }
  }

  lemma CountInvPreserved(w: World, s: Step)
    requires CountInv(w)
    ensures CountInv(Next(w, s))
  {
    if s.Proceed? && s.caller in w.calls {
      match w.calls[s.caller]
      case OpenInsert(_, _) => OpenInsertCounts(w, s.caller, s.ownerFound);
      case CloseUpdate(_, _) => CloseUpdateCounts(w, s.caller, s.ownerFound);
      case CloseSave(_) => CloseSaveCounts(w, s.caller, s.ownerFound);
      case _ =>
    }
  }

  /** A call that moves on or ends, with what was sent, keeps every other call's promise. */
  lemma NotesKept(w: World, c: nat, w': World)
    requires NotesInv(w) && c in w.calls
    requires forall n :: Happened(w.docs, n) ==> Happened(w'.docs, n)
    requires w'.calls == w.calls - {c}
             || (c in w'.calls && w'.calls == w.calls[c := w'.calls[c]] && Owes(w'.calls[c]) == Owes(w.calls[c]))
    requires w'.dispatched == w.dispatched
             || (c !in w'.calls && Owes(w.calls[c]).Some?
                 && w'.dispatched == w.dispatched + multiset{Owes(w.calls[c]).value})
    ensures NotesInv(w')
  {
  }

  /** A call that makes the transition owes a note that nobody owed or sent before. */
  lemma NotesFresh(w: World, c: nat, w': World, n: Note)
    requires NotesInv(w) && c in w.calls && Owes(w.calls[c]).None?
    requires forall k :: Happened(w.docs, k) ==> Happened(w'.docs, k)
    requires !Happened(w.docs, n) && Happened(w'.docs, n) && w'.dispatched == w.dispatched
    requires c in w'.calls && w'.calls == w.calls[c := w'.calls[c]] && Owes(w'.calls[c]) == Some(n)
    ensures NotesInv(w')
  {
  }

  lemma TransitionKeepsNotes(w: World, c: nat, ownerFound: bool)
    requires NotesInv(w) && c in w.calls && (w.calls[c].OpenInsert? || w.calls[c].CloseUpdate?)
    ensures NotesInv(Advance(w, c, ownerFound))
  {
    var w' := Advance(w, c, ownerFound);
    if w'.docs == w.docs && w'.calls == w.calls - {c} {
      NotesKept(w, c, w');
    } else {
      NotesFresh(w, c, w', Owes(w'.calls[c]).value);
    }
  }

  lemma ProceedKeepsNotes(w: World, c: nat, ownerFound: bool)
    requires NotesInv(w) && c in w.calls && !w.calls[c].OpenInsert? && !w.calls[c].CloseUpdate?
    ensures NotesInv(Advance(w, c, ownerFound))
  {
    if w.calls[c].CloseSave? { assert Happened(w.docs, Owes(w.calls[c]).value); }
    NotesKept(w, c, Advance(w, c, ownerFound));
  }

  lemma NotesInvPreserved(w: World, s: Step)
    requires NotesInv(w)
    ensures NotesInv(Next(w, s))
  {
    if s.Proceed? && s.caller in w.calls {
      if w.calls[s.caller].OpenInsert? || w.calls[s.caller].CloseUpdate? {
        TransitionKeepsNotes(w, s.caller, s.ownerFound);
      } else {
        ProceedKeepsNotes(w, s.caller, s.ownerFound);
      }
    }
  }

  lemma DurationInvPreserved(w: World, s: Step)
    requires DurationInv(w)
    ensures DurationInv(Next(w, s))
  {
    if s.Proceed? && s.caller in w.calls {
      match w.calls[s.caller]
      case OpenInsert(_, _) => AdvanceKeepsDurations(w, s.caller, s.ownerFound);
      case CloseUpdate(_, _) => AdvanceKeepsDurations(w, s.caller, s.ownerFound);
      case CloseSave(_) => AdvanceKeepsDurations(w, s.caller, s.ownerFound);
      case _ =>
    }
  }

  lemma AdvanceKeepsDurations(w: World, c: nat, ownerFound: bool)
    requires DurationInv(w) && c in w.calls
    ensures DurationInv(Advance(w, c, ownerFound))
  {
  }

  lemma {:induction false} InvReachable(steps: seq<Step>)
    ensures var w := Run(Genesis, steps); CountInv(w) && NotesInv(w) && DurationInv(w)
  {
    if steps != [] {
      var w := Run(Genesis, steps[..|steps| - 1]);
      InvReachable(steps[..|steps| - 1]);
      CountInvPreserved(w, steps[|steps| - 1]);
      NotesInvPreserved(w, steps[|steps| - 1]);
      DurationInvPreserved(w, steps[|steps| - 1]);
    }
  }

  /**
   * Exactly-once transitions under any interleaving, duplicate-key race included: opens minus
   * closes is the number of ONGOING incidents, which is 0 or 1, and no incident is ever
   * announced twice.
   */
  lemma ExactlyOnce(steps: seq<Step>, m: MonitorId, n: Note)
    ensures var w := Run(Genesis, steps);
            && w.opens[m] == w.closes[m] + OngoingCount(w.docs, m)
            && OngoingCount(w.docs, m) == (if FindOngoing(w.docs, m).Some? then 1 else 0)
            && w.dispatched[n] <= 1
            && (n in w.dispatched ==> Happened(w.docs, n))
  {
    InvReachable(steps);
    CountIsZeroOrOne(Run(Genesis, steps).docs, m);
  }

  /** No call is abandoned and every owner can be notified. */
  predicate AllSeenThrough(steps: seq<Step>) {
    forall k :: 0 <= k < |steps| ==> !steps[k].Abandon? && (steps[k].Proceed? ==> steps[k].ownerFound)
  }

  /** The note has been sent, or some call still owes it. */
  ghost predicate IsComing(w: World, n: Note) {
    n in w.dispatched || exists c :: c in w.calls && Owes(w.calls[c]) == Some(n)
  }

  ghost predicate NothingLost(w: World) {
    && (forall n: Note :: Happened(w.docs, n) ==> IsComing(w, n))
    && (forall c :: c in w.calls && Owes(w.calls[c]).Some? ==> Happened(w.docs, Owes(w.calls[c]).value))
  }

  lemma ComingKept(w: World, c: nat, w': World, n: Note)
    requires IsComing(w, n) && c in w.calls
    requires forall d :: d in w.calls && d != c ==> d in w'.calls && w'.calls[d] == w.calls[d]
    requires Owes(w.calls[c]).Some? ==>
               Owes(w.calls[c]).value in w'.dispatched || (c in w'.calls && Owes(w'.calls[c]) == Owes(w.calls[c]))
    requires w.dispatched <= w'.dispatched
    ensures IsComing(w', n)
  {
    if n in w.dispatched {
      assert n in w'.dispatched;
    } else {
      var d :| d in w.calls && Owes(w.calls[d]) == Some(n);
      assert d != c ==> d in w'.calls && Owes(w'.calls[d]) == Some(n);
    }
  }

  lemma ProceedLosesNothing(w: World, c: nat)
    requires NothingLost(w) && c in w.calls
    ensures NothingLost(Advance(w, c, true))
  {
    var w' := Advance(w, c, true);
    forall n: Note | Happened(w'.docs, n) ensures IsComing(w', n) {
      if Happened(w.docs, n) {
        KeepsWhatIsOwed(w, c);
        ComingKept(w, c, w', n);
      } else {
        OwesWhatItDid(w, c, n);
      }
    }
    forall d | d in w'.calls && Owes(w'.calls[d]).Some? ensures Happened(w'.docs, Owes(w'.calls[d]).value) {
      OwedHasHappened(w, c, d);
    }
  }

  lemma KeepsWhatIsOwed(w: World, c: nat)
    requires c in w.calls
    ensures var w' := Advance(w, c, true);
            && (forall d :: d in w.calls && d != c ==> d in w'.calls && w'.calls[d] == w.calls[d])
            && w.dispatched <= w'.dispatched
            && (Owes(w.calls[c]).Some? ==>
                  Owes(w.calls[c]).value in w'.dispatched || (c in w'.calls && Owes(w'.calls[c]) == Owes(w.calls[c])))
  {
  }

  lemma OwesWhatItDid(w: World, c: nat, n: Note)
    requires c in w.calls && !Happened(w.docs, n) && Happened(Advance(w, c, true).docs, n)
    ensures IsComing(Advance(w, c, true), n)
  {
    var w' := Advance(w, c, true);
    assert c in w'.calls && Owes(w'.calls[c]) == Some(n);
  }

  lemma OwedHasHappened(w: World, c: nat, d: nat)
    requires NothingLost(w) && c in w.calls
    requires d in Advance(w, c, true).calls && Owes(Advance(w, c, true).calls[d]).Some?
    ensures Happened(Advance(w, c, true).docs, Owes(Advance(w, c, true).calls[d]).value)
  {
    if d != c { assert d in w.calls && Advance(w, c, true).calls[d] == w.calls[d]; }
  }

  lemma BeginLosesNothing(w: World, s: Step)
    requires NothingLost(w) && !s.Proceed? && !s.Abandon?
    ensures NothingLost(Next(w, s))
  {
    var w' := Next(w, s);
    forall n: Note | Happened(w'.docs, n) ensures IsComing(w', n) {
      assert IsComing(w, n);
      if n !in w.dispatched {
        var d :| d in w.calls && Owes(w.calls[d]) == Some(n);
        assert d in w'.calls && w'.calls[d] == w.calls[d];
      }
    }
  }

  lemma {:induction false} NothingLostReachable(steps: seq<Step>)
    requires AllSeenThrough(steps)
    ensures NothingLost(Run(Genesis, steps))
  {
    if steps != [] {
      var n := |steps| - 1;
      NothingLostReachable(steps[..n]);
      var w := Run(Genesis, steps[..n]);
      if steps[n].Proceed? && steps[n].caller in w.calls {
        ProceedLosesNothing(w, steps[n].caller);
      } else if !steps[n].Proceed? {
        BeginLosesNothing(w, steps[n]);
      }
    }
  }

  /**
   * And no less than once: when every call has been seen through, exactly the transitions that
   * have happened have been announced, each once.
   */
  lemma AllAnnounced(steps: seq<Step>, n: Note)
    requires AllSeenThrough(steps) && Run(Genesis, steps).calls == map[]
    ensures var w := Run(Genesis, steps); w.dispatched[n] == if Happened(w.docs, n) then 1 else 0
  {
    InvReachable(steps);
    NothingLostReachable(steps);
    var w := Run(Genesis, steps);
    if Happened(w.docs, n) {
      assert IsComing(w, n);
      assert w.dispatched[n] == 1;
    } else {
      assert n !in w.dispatched;
    }
  }

  // ---------------------------------------------------------------- durations

  /**
   * A stored duration is either still the initial zero or the whole seconds from start to
   * end; in the second case it is negative exactly when the end came first.
   */
  lemma DurationSign(steps: seq<Step>, id: nat)
    requires id < |Run(Genesis, steps).docs|
    ensures var i := Run(Genesis, steps).docs[id];
            && (i.duration == 0 || (i.endTime.Some? && i.duration == WholeSeconds(i.startTime, i.endTime.value)))
            && (i.duration < 0 ==> i.endTime.value < i.startTime)
  {
    InvReachable(steps);
  }

  /**
   * Whatever happens before and after, once a close has saved its incident the stored
   * duration is the time from start to end in whole seconds, and negative iff the end lies
   * before the start.
   */
  lemma SavedDurationSign(before: seq<Step>, closer: nat, ownerFound: bool, after: seq<Step>)
    requires closer in Run(Genesis, before).calls && Run(Genesis, before).calls[closer].CloseSave?
    ensures var id := Run(Genesis, before).calls[closer].id;
            var docs := Run(Genesis, before + [Proceed(closer, ownerFound)] + after).docs;
            && id < |docs| && docs[id].endTime.Some?
            && (docs[id].duration < 0 <==> docs[id].endTime.value < docs[id].startTime)
            && 1000 * docs[id].duration <= docs[id].endTime.value - docs[id].startTime < 1000 * (docs[id].duration + 1)
  {
    InvReachable(before);
    var w, id := Run(Genesis, before), Run(Genesis, before).calls[closer].id;
    assert Owes(w.calls[closer]) == Some(Note(CLOSED, id)) && Happened(w.docs, Note(CLOSED, id));
    RunSnoc(Genesis, before, Proceed(closer, ownerFound));
    SavedStays(Genesis, before + [Proceed(closer, ownerFound)], after, id);
    var saved := Run(Genesis, before + [Proceed(closer, ownerFound)] + after).docs[id];
    SecondsSpec(saved.startTime, saved.endTime.value);
  }

  predicate IsSaved(docs: seq<Incident>, id: nat) {
    id < |docs| && docs[id].status == RESOLVED && docs[id].endTime.Some? && docs[id].duration == HookDuration(docs[id])
  }

  lemma SavedKept(w: World, s: Step, id: nat)
    requires IsSaved(w.docs, id)
    ensures IsSaved(Next(w, s).docs, id)
  {
  }

  lemma {:induction false} SavedStays(w: World, steps: seq<Step>, more: seq<Step>, id: nat)
    requires IsSaved(Run(w, steps).docs, id)
    ensures IsSaved(Run(w, steps + more).docs, id)
  {
    if more == [] {
      assert steps + more == steps;
    } else {
      var n := |more| - 1;
      SavedStays(w, steps, more[..n], id);
      RunSnoc(w, steps + more[..n], more[n]);
      SavedKept(Run(w, steps + more[..n]), more[n], id);
      assert steps + more == steps + more[..n] + [more[n]];
    }
  }

  predicate WillClose(call: Call, m: MonitorId) {
    call.CloseUpdate? && call.monitorId == m
  }

  /**
   * The guard: nobody begins to open an incident of a monitor while a close of the same
   * monitor that read an earlier clock has not made its update yet.
   */
  ghost predicate Timely(w: World, s: Step) {
    s.BeginOpen? ==>
      forall c :: c in w.calls && WillClose(w.calls[c], s.monitorId) ==> w.clock <= w.calls[c].endTime
  }

  ghost predicate TimelyRun(w: World, steps: seq<Step>) {
    forall k :: 0 <= k < |steps| ==> Timely(Run(w, steps[..k]), steps[k])
  }

  predicate IsOpening(call: Call) {
    call.OpenFind? || call.OpenInsert?
  }

  /**
   * No reading of the clock lies in the future, and what is or may become ONGOING started before
   * any close in progress.
   */
  ghost predicate TimelyInv(w: World) {
    && (forall i :: 0 <= i < |w.docs| ==> w.docs[i].startTime <= w.clock)
    && (forall i :: 0 <= i < |w.docs| && w.docs[i].endTime.Some? ==> w.docs[i].startTime <= w.docs[i].endTime.value)
    && (forall c :: c in w.calls && IsOpening(w.calls[c]) ==> w.calls[c].startTime <= w.clock)
    && (forall c, i :: c in w.calls && 0 <= i < |w.docs|
                       && WillClose(w.calls[c], w.docs[i].monitorId) && w.docs[i].status == ONGOING
                       ==> w.docs[i].startTime <= w.calls[c].endTime)
    && (forall c, d :: c in w.calls && d in w.calls && IsOpening(w.calls[d])
                       && WillClose(w.calls[c], w.calls[d].monitorId)
                       ==> w.calls[d].startTime <= w.calls[c].endTime)
  }

  lemma TimelyInvPreserved(w: World, s: Step)
    requires TimelyInv(w) && Timely(w, s)
    ensures TimelyInv(Next(w, s))
  {
    if s.Proceed? && s.caller in w.calls {
      var call := w.calls[s.caller];
      if call.OpenInsert? {
        InsertKeepsTimely(w, s.caller, s.ownerFound);
      } else if call.CloseUpdate? {
        UpdateKeepsTimely(w, s.caller, s.ownerFound);
      } else if call.CloseSave? {
        SaveKeepsTimely(w, s.caller, s.ownerFound);
      } else {
        OtherKeepsTimely(w, s.caller, s.ownerFound);
      }
    }
  }

  lemma InsertKeepsTimely(w: World, c: nat, ownerFound: bool)
    requires TimelyInv(w) && c in w.calls && w.calls[c].OpenInsert?
    ensures TimelyInv(Advance(w, c, ownerFound))
  {
  }

  lemma UpdateKeepsTimely(w: World, c: nat, ownerFound: bool)
    requires TimelyInv(w) && c in w.calls && w.calls[c].CloseUpdate?
    ensures TimelyInv(Advance(w, c, ownerFound))
  {
  }

  lemma OtherKeepsTimely(w: World, c: nat, ownerFound: bool)
    requires TimelyInv(w) && c in w.calls && (w.calls[c].OpenFind? || w.calls[c].OpenNotify? || w.calls[c].CloseNotify?)
    ensures TimelyInv(Advance(w, c, ownerFound))
  {
    assert Advance(w, c, ownerFound).docs == w.docs;
  }

  lemma SaveKeepsTimely(w: World, c: nat, ownerFound: bool)
    requires TimelyInv(w) && c in w.calls && w.calls[c].CloseSave?
    ensures TimelyInv(Advance(w, c, ownerFound))
  {
  }

  lemma {:induction false} TimelyReachable(steps: seq<Step>)
    requires TimelyRun(Genesis, steps)
    ensures TimelyInv(Run(Genesis, steps))
  {
    if steps != [] {
      var n := |steps| - 1;
      forall k | 0 <= k < n ensures Timely(Run(Genesis, steps[..n][..k]), steps[..n][k]) {
        assert steps[..n][..k] == steps[..k];
      }
      TimelyReachable(steps[..n]);
      TimelyInvPreserved(Run(Genesis, steps[..n]), steps[n]);
    }
  }

  /**
   * Under the guard no run of any number of concurrent callers ever stores a negative
   * duration, and every incident ends no earlier than it began.
   */
  lemma TimelyDurations(steps: seq<Step>, id: nat)
    requires TimelyRun(Genesis, steps) && id < |Run(Genesis, steps).docs|
    ensures var i := Run(Genesis, steps).docs[id];
            0 <= i.duration && (i.endTime.Some? ==> i.startTime <= i.endTime.value)
  {
    TimelyReachable(steps);
    InvReachable(steps);
  }

  /** In some continuation the next incident to be stored ends up with a negative duration. */
  ghost predicate MayGoNegative(w: World, id: nat) {
    exists steps :: var docs := Run(w, steps).docs; |docs| == id + 1 && docs[id].duration < 0
  }

  lemma MayGoNegativeBefore(w: World, s: Step, id: nat)
    requires MayGoNegative(Next(w, s), id)
    ensures MayGoNegative(w, id)
  {
    var steps :| var docs := Run(Next(w, s), steps).docs; |docs| == id + 1 && docs[id].duration < 0;
    RunCons(w, s, steps);
  }

  lemma {:induction false} RunCons(w: World, s: Step, steps: seq<Step>)
    ensures Run(w, [s] + steps) == Run(Next(w, s), steps)
  {
    var all, n := [s] + steps, |steps| - 1;
    if steps == [] {
      assert all[..0] == [];
    } else {
      RunCons(w, s, steps[..n]);
      assert all[..|all| - 1] == [s] + steps[..n];
    }
  }

  /**
   * The guard is necessary: every open that breaks it can, if the index has been kept, be
   * continued to a stored negative duration.
   */
  lemma UntimelyOpenCanGoNegative(w: World, opener: nat, m: MonitorId)
    requires OneOngoing(w.docs) && opener !in w.calls && !Timely(w, BeginOpen(opener, m))
    ensures MayGoNegative(Next(w, BeginOpen(opener, m)), |w.docs|)
  {
    var closer :| closer in w.calls && WillClose(w.calls[closer], m) && w.calls[closer].endTime < w.clock;
    var w0 := Next(w, BeginOpen(opener, m));
    if FindOngoing(w.docs, m).None? {
      StaleCloseResolves(w0, closer, opener, m);
    } else {
      var other := FreshCaller(w0);
      ClosedByOther(w0, other, m);
      var w1 := Next(w0, BeginClose(other, m));
      var w2 := Next(w1, Proceed(other, true));
      StaleCloseResolves(w2, closer, opener, m);
      MayGoNegativeBefore(w1, Proceed(other, true), |w.docs|);
      MayGoNegativeBefore(w0, BeginClose(other, m), |w.docs|);
    }
  }

  lemma FreshCaller(w: World) returns (c: nat)
    ensures c !in w.calls
  {
    var largest := LargestCaller(w.calls.Keys);
    c := largest + 1;
  }

  lemma {:induction false} LargestCaller(callers: set<nat>) returns (largest: nat)
    ensures forall c :: c in callers ==> c <= largest
    decreases |callers|
  {
    largest := 0;
    if callers != {} {
      var c :| c in callers;
      var rest := LargestCaller(callers - {c});
      largest := Max(rest, c);
      assert forall d :: d in callers ==> d == c || d in callers - {c};
    }
  }

  /** Another caller resolves what is ongoing. */
  lemma ClosedByOther(w: World, other: nat, m: MonitorId)
    requires OneOngoing(w.docs) && other !in w.calls && FindOngoing(w.docs, m).Some?
    ensures var w' := Next(Next(w, BeginClose(other, m)), Proceed(other, true));
            && FindOngoing(w'.docs, m).None? && |w'.docs| == |w.docs|
            && forall c :: c in w.calls ==> c in w'.calls && w'.calls[c] == w.calls[c]
  {
    var w1 := Next(w, BeginClose(other, m));
    assert w1.docs == w.docs && w1.calls[other] == CloseUpdate(m, w.clock);
    var id := FindOngoing(w.docs, m).value;
    var docs := Resolve(w.docs, id, w.clock);
    assert Next(w1, Proceed(other, true)).docs == docs;
    forall i | 0 <= i < |docs| ensures !IsOngoing(docs[i], m) {
      assert i != id ==> docs[i] == w.docs[i];
    }
  }

  /** The pending open creates the incident, the stale close resolves and saves it. */
  lemma StaleCloseResolves(w: World, closer: nat, opener: nat, m: MonitorId)
    requires closer in w.calls && WillClose(w.calls[closer], m) && FindOngoing(w.docs, m).None?
    requires opener in w.calls && w.calls[opener].OpenFind? && w.calls[opener].monitorId == m
    requires w.calls[closer].endTime < w.calls[opener].startTime
    ensures MayGoNegative(w, |w.docs|)
  {
    var n, start, end := |w.docs|, w.calls[opener].startTime, w.calls[closer].endTime;
    var w1 := Next(w, Proceed(opener, true));
    var w2 := Next(w1, Proceed(opener, true));
    assert w2.docs == w.docs + [NewIncident(m, start, "")] && w2.calls[closer] == CloseUpdate(m, end);
    assert FindOngoing(w2.docs, m) == Some(n);
    var w3 := Next(w2, Proceed(closer, true));
    assert w3.docs == Resolve(w2.docs, n, end) && w3.calls[closer] == CloseSave(n);
    var w4 := Next(w3, Proceed(closer, true));
    assert w4.docs[n].duration == WholeSeconds(start, end) < 0;
    assert Run(w4, []) == w4;
    MayGoNegativeBefore(w3, Proceed(closer, true), n);
    MayGoNegativeBefore(w2, Proceed(closer, true), n);
    MayGoNegativeBefore(w1, Proceed(opener, true), n);
    MayGoNegativeBefore(w, Proceed(opener, true), n);
  }

  /**
   * A forward clock does not rule that out: a close that read its clock before the incident
   * was opened can still be the one that resolves it, and then stores a negative duration.
   */
  lemma StaleCloseStoresNegativeDuration(w: World, closer: nat, opener: nat)
    requires closer in w.calls && w.calls[closer].CloseUpdate? && w.calls[closer].endTime < w.clock
    requires opener !in w.calls && FindOngoing(w.docs, w.calls[closer].monitorId).None?
    ensures exists steps :: var docs := Run(w, steps).docs; |docs| == |w.docs| + 1 && docs[|w.docs|].duration < 0
  {
    var m := w.calls[closer].monitorId;
    StaleCloseResolves(Next(w, BeginOpen(opener, m)), closer, opener, m);
    MayGoNegativeBefore(w, BeginOpen(opener, m), |w.docs|);
  }

  lemma RunSnoc(w: World, steps: seq<Step>, s: Step)
    ensures Run(w, steps + [s]) == Next(Run(w, steps), s)
  {
    assert (steps + [s])[..|steps|] == steps;
  }
}
