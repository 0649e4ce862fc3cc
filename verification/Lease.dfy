/**
 * Leader election: one lease document, any number of instances.
 *
 * The document is changed only by the atomic conditional upsert (`Upsert`) and by the
 * owner-scoped delete (`DeleteOwned`).  `SchedulerLock` is the class of lock.service.js;
 * `World` is the protocol it induces when instances interleave, lose replies, and crash.
 */
module Lease {
  import opened Common

  type Instance = string

  datatype LeaseDoc = LeaseDoc(owner: Instance, expiresAt: int, heartbeatAt: int, acquiredAt: int)

  datatype Reply = Granted(doc: LeaseDoc) | DuplicateKey

  /** The upsert's filter: the lease has expired by the caller's clock reading, or is already the caller's. */
  predicate Matches(doc: LeaseDoc, owner: Instance, now: int) {
    doc.expiresAt <= now || doc.owner == owner
  }

  /** findOneAndUpdate with upsert: update on a match, insert when absent, otherwise the unique _id refuses. */
  function Upsert(stored: Option<LeaseDoc>, owner: Instance, now: int, ttl: nat): (Option<LeaseDoc>, Reply) {
    match stored
    case None =>
      var doc := LeaseDoc(owner, now + ttl, now, now);
      (Some(doc), Granted(doc))
    case Some(doc) =>
      if Matches(doc, owner, now) then
        var renewed := doc.(owner := owner, expiresAt := now + ttl, heartbeatAt := now);
        (Some(renewed), Granted(renewed))
      else
        (stored, DuplicateKey)
  }

  function DeleteOwned(stored: Option<LeaseDoc>, owner: Instance): Option<LeaseDoc> {
    if stored.Some? && stored.value.owner == owner then None else stored
  }

  // ---------------------------------------------------------------- the lock object

  /**
   * What has become of one database call when it returns: executed and answered, executed but
   * unanswered, or not executed.
   */
  datatype Fate = Answered | ReplyLost | NotRun

  class LockCollection {
    var stored: Option<LeaseDoc>

    constructor ()
      ensures stored == None
    {
      stored := None;
    }
  }

  class SchedulerLock {
    const owner: Instance
    const ttlMs: nat
    const model: LockCollection
    var isLeader: bool

    constructor (owner: Instance, ttlMs: nat, model: LockCollection)
      ensures this.owner == owner && this.ttlMs == ttlMs && this.model == model && !isLeader
    {
      this.owner, this.ttlMs, this.model := owner, ttlMs, model;
      isLeader := false;
    }

    /** Leadership is claimed only on an answered grant; every other outcome gives it up. */
    method Acquire(now: int, fate: Fate) returns (held: bool)
      modifies this`isLeader, model`stored
      ensures held == isLeader
      ensures held ==> fate == Answered && model.stored.Some? && model.stored.value.owner == owner
                       && model.stored.value.expiresAt == now + ttlMs
      ensures !held && fate == Answered ==>
                model.stored == old(model.stored) && model.stored.Some?
                && model.stored.value.owner != owner && now < model.stored.value.expiresAt
      ensures model.stored == if fate == NotRun then old(model.stored)
                              else Upsert(old(model.stored), owner, now, ttlMs).0
      ensures fate != NotRun ==>
                match old(model.stored)
                case None => model.stored == Some(LeaseDoc(owner, now + ttlMs, now, now)) && (fate == Answered ==> held)
                case Some(doc) =>
                  if doc.expiresAt <= now || doc.owner == owner then
                    && model.stored == Some(LeaseDoc(owner, now + ttlMs, now, doc.acquiredAt))
                    && (fate == Answered ==> held)
                  else model.stored == Some(doc) && !held
    {
      var granted := false;
      if fate != NotRun {
        var (stored, reply) := Upsert(model.stored, owner, now, ttlMs);
        model.stored := stored;
        granted := reply.Granted? && reply.doc.owner == owner;
      }
      if fate == Answered {
        isLeader := granted;
      } else {
        isLeader := false;
      }
      held := isLeader;
    }

    /** Never deletes a document that names somebody else. */
    method Release(fate: Fate)
      modifies this`isLeader, model`stored
      ensures !isLeader
      ensures model.stored == if old(isLeader) && fate != NotRun then DeleteOwned(old(model.stored), owner)
                              else old(model.stored)
      ensures old(model.stored).Some? && old(model.stored).value.owner != owner ==> model.stored == old(model.stored)
      ensures old(isLeader) && fate != NotRun && old(model.stored).Some? && old(model.stored).value.owner == owner ==>
                model.stored == None
    {
      if !isLeader { return; }
      isLeader := false;
      if fate != NotRun {
        model.stored := DeleteOwned(model.stored, owner);
      }
    }
  }

  // ---------------------------------------------------------------- the protocol

  /** The acquire call an instance is awaiting. */
  datatype Call =
    | Idle
    | Sent(now: int)
    | Ran(granted: bool, until: int)

  /**
   * `leaseUntil` is the expiry the last answered grant carried.  `strays` holds the clock
   * readings of upserts that were given up on before they ran and may still run; `releasing`
   * says that a delete may still run.
   */
  datatype Peer = Peer(ttl: nat, alive: bool, isLeader: bool, leaseUntil: int, call: Call, releasing: bool,
                       strays: multiset<int>)

  datatype World = World(clock: int, doc: Option<LeaseDoc>, peers: map<Instance, Peer>)

  datatype Step =
    | Advance(dt: nat)
    | Join(id: Instance, ttl: nat)
    | SendAcquire(id: Instance)
    | RunAcquire(id: Instance)
    | LoseAcquire(id: Instance)
    | RunStray(id: Instance, now: int)
    | DropStray(id: Instance, now: int)
    | Receive(id: Instance)
    | LoseReply(id: Instance)
    | SendRelease(id: Instance)
    | RunRelease(id: Instance)
    | LoseRelease(id: Instance)
    | Crash(id: Instance)
    | Sweep

  /** The TTL index: garbage collection of documents that expired long ago. */
  const SWEEP_AFTER_MS := 3600 * 1000

  /** The instance's own acquire may still bring it a lease that is live. */
  predicate IsGrantComing(w: World, p: Peer) {
    || (p.call.Sent? && w.clock < p.call.now + p.ttl)
    || (p.call.Ran? && p.call.granted && w.clock < p.call.until)
  }

  /**
   * No release while the instance's own acquire may still bring a live lease, and no acquire
   * while one of its deletes, or an abandoned upsert with an older reading, may still run.
   */
  predicate Disciplined(w: World, s: Step) {
    match s
    case SendAcquire(id) =>
      id in w.peers ==> !w.peers[id].releasing && forall now :: now in w.peers[id].strays ==> w.clock <= now
    case SendRelease(id) => id in w.peers ==> !IsGrantComing(w, w.peers[id])
    case _ => true
  }

  /** One atomic step; a step that is not enabled leaves the world as it is. */
  function Next(w: World, s: Step): World {
    match s
    case Advance(dt) => w.(clock := w.clock + dt)
    case Join(id, ttl) =>
      if id in w.peers then w
      else w.(peers := w.peers[id := Peer(ttl, true, false, w.clock, Idle, false, multiset{})])
    case Sweep =>
      if w.doc.Some? && w.doc.value.expiresAt + SWEEP_AFTER_MS <= w.clock then w.(doc := None) else w
    case _ =>
      if s.id in w.peers then NextOf(w, s, w.peers[s.id]) else w
  }

  function NextOf(w: World, s: Step, p: Peer): World
    requires !s.Advance? && !s.Join? && !s.Sweep?
  {
    match s
    case SendAcquire(id) =>
      if p.alive && p.call.Idle? then w.(peers := w.peers[id := p.(call := Sent(w.clock))]) else w
    case RunAcquire(id) =>
      if p.call.Sent? then
        var (doc, reply) := Upsert(w.doc, id, p.call.now, p.ttl);
        w.(doc := doc, peers := w.peers[id := p.(call := Ran(reply.Granted?, p.call.now + p.ttl))])
      else w
    case LoseAcquire(id) =>
      if p.call.Sent? then
        w.(peers := w.peers[id := p.(call := Idle, isLeader := false, strays := p.strays + multiset{p.call.now})])
      else w
    case RunStray(id, now) =>
      if now in p.strays then
        w.(doc := Upsert(w.doc, id, now, p.ttl).0, peers := w.peers[id := p.(strays := p.strays - multiset{now})])
      else w
    case DropStray(id, now) =>
      w.(peers := w.peers[id := p.(strays := p.strays - multiset{now})])
    case Receive(id) =>
      if p.alive && p.call.Ran? then
        w.(peers := w.peers[id := p.(call := Idle, isLeader := p.call.granted,
                                     leaseUntil := if p.call.granted then p.call.until else p.leaseUntil)])
      else w
    case LoseReply(id) =>
      if p.call.Ran? then w.(peers := w.peers[id := p.(call := Idle, isLeader := false)]) else w
    case SendRelease(id) =>
      if p.alive && p.isLeader && !p.releasing then
        w.(peers := w.peers[id := p.(isLeader := false, releasing := true)])
      else w
    case RunRelease(id) =>
      if p.releasing then w.(doc := DeleteOwned(w.doc, id), peers := w.peers[id := p.(releasing := false)]) else w
    case LoseRelease(id) =>
      if p.releasing then w.(peers := w.peers[id := p.(releasing := false)]) else w
    case Crash(id) =>
      w.(peers := w.peers[id := p.(alive := false, isLeader := false)])
  }

  function Run(w: World, steps: seq<Step>): World {
    if steps == [] then w else Next(Run(w, steps[..|steps| - 1]), steps[|steps| - 1])
  }

  ghost predicate DisciplinedRun(w: World, steps: seq<Step>) {
    forall k :: 0 <= k < |steps| ==> Disciplined(Run(w, steps[..k]), steps[k])
  }

  const Genesis := World(0, None, map[])

  /** The instance believes it leads, and the lease it was last granted is still in the future. */
  predicate Leads(w: World, id: Instance) {
    id in w.peers && w.peers[id].isLeader && w.clock < w.peers[id].leaseUntil
  }

  predicate Names(doc: Option<LeaseDoc>, id: Instance, until: int) {
    doc.Some? && doc.value.owner == id && until <= doc.value.expiresAt
  }

  /** An abandoned upsert cannot shorten a lease that is believed or on its way. */
  predicate StrayOk(w: World, p: Peer, now: int) {
    && now <= w.clock
    && (p.call.Sent? ==> p.call.now <= now)
    && (p.call.Ran? ==> p.call.until <= now + p.ttl)
    && (p.isLeader ==> p.leaseUntil <= now + p.ttl)
  }

  ghost predicate PeerInv(w: World, id: Instance)
    requires id in w.peers
  {
    var p := w.peers[id];
    && (p.call.Sent? ==> p.call.now <= w.clock && (p.isLeader ==> p.leaseUntil <= p.call.now + p.ttl))
    && (p.call.Ran? ==> p.call.until <= w.clock + p.ttl && (p.isLeader ==> p.leaseUntil <= p.call.until))
    && (p.call.Ran? && p.isLeader && w.clock < p.leaseUntil ==> p.call.granted)
    && (p.call.Ran? && p.call.granted && w.clock < p.call.until ==> Names(w.doc, id, p.call.until))
    && (p.isLeader ==> p.alive && p.leaseUntil <= w.clock + p.ttl)
    && (p.isLeader && w.clock < p.leaseUntil ==> Names(w.doc, id, p.leaseUntil))
    && (p.releasing ==> !(p.isLeader && w.clock < p.leaseUntil) && !IsGrantComing(w, p))
    && (forall now :: now in p.strays ==> StrayOk(w, p, now))
  }

  ghost predicate DocInv(w: World) {
    w.doc.Some? ==>
      && w.doc.value.owner in w.peers
      && w.doc.value.heartbeatAt <= w.clock
      && w.doc.value.expiresAt == w.doc.value.heartbeatAt + w.peers[w.doc.value.owner].ttl
  }

  ghost predicate Inv(w: World) {
    DocInv(w) && forall id :: id in w.peers ==> PeerInv(w, id)
  }

  /** An instance that does not take the step keeps its guarantees, whatever happens to the document. */
  lemma BystanderKeeps(w: World, s: Step, id: Instance)
    requires Inv(w) && Disciplined(w, s) && id in w.peers
    requires s.Advance? || s.Sweep? || s.id != id
    ensures id in Next(w, s).peers && PeerInv(Next(w, s), id)
  {
    if s.Advance? || s.Sweep? || s.Join? {
      TimeKeeps(w, s, id);
    } else if (s.RunAcquire? || s.RunStray?) && s.id in w.peers {
      BystanderKeepsLease(w, s, id);
    } else {
      OthersStepKeeps(w, s, id);
    }
  }

  /** No other step of another instance changes more than that instance, or deletes more than its own document. */
  lemma OthersStepKeeps(w: World, s: Step, id: Instance)
    requires Inv(w) && id in w.peers && !s.Advance? && !s.Sweep? && !s.Join? && s.id != id
    requires s.id in w.peers ==> !s.RunAcquire? && !s.RunStray?
    ensures id in Next(w, s).peers && PeerInv(Next(w, s), id)
  {
    assert PeerInv(w, id);
    assert Next(w, s).peers[id] == w.peers[id] && Next(w, s).clock == w.clock;
    assert Next(w, s).doc == w.doc || Next(w, s).doc == DeleteOwned(w.doc, s.id);
  }

  /** Neither time, nor the sweep, nor a newcomer takes a live lease away. */
  lemma TimeKeeps(w: World, s: Step, id: Instance)
    requires Inv(w) && id in w.peers && (s.Advance? || s.Sweep? || s.Join?)
    ensures id in Next(w, s).peers && PeerInv(Next(w, s), id)
  {
    assert PeerInv(w, id);
  }

  /** An upsert with a reading in the past does not touch a live lease of somebody else. */
  lemma BystanderKeepsLease(w: World, s: Step, id: Instance)
    requires Inv(w) && (s.RunAcquire? || s.RunStray?) && s.id in w.peers && id in w.peers && s.id != id
    ensures id in Next(w, s).peers && PeerInv(Next(w, s), id)
  {
    assert PeerInv(w, id) && PeerInv(w, s.id);
  }

  /** Steps that end, give up on or answer one of the instance's calls. */
  predicate IsReaction(s: Step) {
    s.Receive? || s.LoseAcquire? || s.LoseReply? || s.LoseRelease? || s.DropStray? || s.Crash?
  }

  lemma ActorKeeps(w: World, s: Step)
    requires Inv(w) && Disciplined(w, s) && !s.Advance? && !s.Sweep? && !IsReaction(s) && s.id in Next(w, s).peers
    ensures PeerInv(Next(w, s), s.id)
  {
    if s.id in w.peers { assert PeerInv(w, s.id); }
  }

  lemma ReactionKeeps(w: World, s: Step)
    requires Inv(w) && IsReaction(s) && s.id in w.peers
    ensures PeerInv(Next(w, s), s.id)
  {
    assert PeerInv(w, s.id);
  }

  lemma DocKeeps(w: World, s: Step)
    requires Inv(w)
    ensures DocInv(Next(w, s))
  {
    if (s.RunAcquire? || s.RunStray?) && s.id in w.peers {
      UpsertKeepsDoc(w, s);
    } else {
      assert Next(w, s).doc in {None, w.doc};
    }
  }

  lemma UpsertKeepsDoc(w: World, s: Step)
    requires Inv(w) && (s.RunAcquire? || s.RunStray?) && s.id in w.peers
    ensures DocInv(Next(w, s))
  {
    assert PeerInv(w, s.id);
  }

  lemma InvPreserved(w: World, s: Step)
    requires Inv(w) && Disciplined(w, s)
    ensures Inv(Next(w, s))
  {
    DocKeeps(w, s);
    forall id | id in Next(w, s).peers ensures PeerInv(Next(w, s), id) {
      if s.Advance? || s.Sweep? || s.id != id {
        BystanderKeeps(w, s, id);
      } else if IsReaction(s) {
        ReactionKeeps(w, s);
      } else {
        ActorKeeps(w, s);
      }
    }
  }

  lemma {:induction false} InvReachable(steps: seq<Step>)
    requires DisciplinedRun(Genesis, steps)
    ensures Inv(Run(Genesis, steps))
  {
    if steps != [] {
      var n := |steps| - 1;
      PrefixDisciplined(Genesis, steps, n);
      InvReachable(steps[..n]);
      InvPreserved(Run(Genesis, steps[..n]), steps[n]);
    }
  }

  lemma PrefixDisciplined(w: World, steps: seq<Step>, n: nat)
    requires n <= |steps| && DisciplinedRun(w, steps)
    ensures DisciplinedRun(w, steps[..n])
  {
    forall k | 0 <= k < n ensures Disciplined(Run(w, steps[..n][..k]), steps[..n][k]) {
      assert steps[..n][..k] == steps[..k];
    }
  }

  // ---------------------------------------------------------------- mutual exclusion

  /**
   * In every disciplined run, with any number of instances, any stale clock readings and
   * upserts that run after they were given up on, at most one instance leads, and the lease
   * document then names it and outlives its belief.
   */
  lemma MutualExclusion(steps: seq<Step>, a: Instance, b: Instance)
    requires DisciplinedRun(Genesis, steps)
    requires Leads(Run(Genesis, steps), a)
    ensures Names(Run(Genesis, steps).doc, a, Run(Genesis, steps).peers[a].leaseUntil)
    ensures Leads(Run(Genesis, steps), b) ==> a == b
  {
    InvReachable(steps);
    var w := Run(Genesis, steps);
    assert PeerInv(w, a);
    if b in w.peers { assert PeerInv(w, b); }
  }

  // ---------------------------------------------------------------- the discipline is necessary

  /** Somebody else is there to acquire, with nothing of its own outstanding. */
  predicate Ready(w: World, id: Instance) {
    && id in w.peers && w.peers[id].alive && w.peers[id].call.Idle? && 0 < w.peers[id].ttl
    && !w.peers[id].releasing && w.peers[id].strays == multiset{}
  }

  /** An acquire sent and executed right now would be granted. */
  predicate MayBeGranted(w: World, id: Instance) {
    && id in w.peers && w.peers[id].alive && w.peers[id].call.Idle? && 0 < w.peers[id].ttl
    && Upsert(w.doc, id, w.clock, w.peers[id].ttl).1.Granted?
  }

  /** From here on, disciplined steps alone can make both lead at once. */
  ghost predicate BothMayLead(w: World, a: Instance, b: Instance) {
    exists steps :: DisciplinedRun(w, steps) && Leads(Run(w, steps), a) && Leads(Run(w, steps), b)
  }

  ghost predicate Reachable(w: World) {
    exists steps :: DisciplinedRun(Genesis, steps) && Run(Genesis, steps) == w
  }

  /** A release sent right now would be carried out, and the acquire that is outstanding granted. */
  predicate MayRelease(w: World, id: Instance) {
    && id in w.peers && w.peers[id].alive && w.peers[id].isLeader && !w.peers[id].releasing
    && (w.peers[id].call.Sent? ==> Upsert(w.doc, id, w.peers[id].call.now, w.peers[id].ttl).1.Granted?)
  }

  /** A leader with a live lease would get the renewal it is waiting for, so it never may release meanwhile. */
  lemma LeaderMayRelease(w: World, a: Instance)
    requires Inv(w) && Leads(w, a)
    ensures MayRelease(w, a) && (!w.peers[a].call.Idle? ==> !Disciplined(w, SendRelease(a)))
  {
    assert PeerInv(w, a);
  }

  /**
   * The release arm is necessary.  Whenever an instance releases while its own acquire can
   * still bring it a live lease, the old one expired or not, the upsert or only its reply
   * outstanding, disciplined steps can follow after which two instances lead.
   */
  lemma ReleaseDuringRenewalBreaksExclusion(w: World, a: Instance, b: Instance)
    requires Inv(w) && MayRelease(w, a) && a != b && Ready(w, b)
    requires !Disciplined(w, SendRelease(a))
    ensures BothMayLead(Next(w, SendRelease(a)), a, b)
  {
    assert PeerInv(w, a);
    var w0 := Next(w, SendRelease(a));
    if w.peers[a].call.Sent? {
      DeletedLeaseIsTaken(Next(w0, RunAcquire(a)), a, b);
      MayLeadBefore(w0, RunAcquire(a), a, b);
    } else {
      DeletedLeaseIsTaken(w0, a, b);
    }
  }

  /** The renewal is granted and believed, and only then does the release delete the document. */
  lemma RenewalOutlivesRelease(w: World, a: Instance)
    requires Inv(w) && Leads(w, a) && !w.peers[a].call.Idle?
    ensures var w0 := Next(w, SendRelease(a));
            var w1 := if w.peers[a].call.Sent? then Next(w0, RunAcquire(a)) else w0;
            var w' := Next(Next(w1, Receive(a)), RunRelease(a));
            Leads(w', a) && w'.doc == None && w'.clock == w.clock && w'.peers == w.peers[a := w'.peers[a]]
  {
    assert PeerInv(w, a);
  }

  /** A live grant is on its way to the instance while its own delete is still to run. */
  predicate Pending(w: World, a: Instance) {
    && a in w.peers && w.peers[a].alive && w.peers[a].releasing
    && w.peers[a].call.Ran? && w.peers[a].call.granted && w.clock < w.peers[a].call.until
    && w.doc.Some? && w.doc.value.owner == a
  }

  /** The delete removes the lease of a grant that is then believed, and anyone may take it. */
  lemma DeletedLeaseIsTaken(w: World, a: Instance, b: Instance)
    requires Pending(w, a) && Ready(w, b) && a != b
    ensures BothMayLead(w, a, b)
  {
    var w1 := Next(w, Receive(a));
    LeaseIsTaken(Next(w1, RunRelease(a)), a, b);
    MayLeadBefore(w1, RunRelease(a), a, b);
    MayLeadBefore(w, Receive(a), a, b);
  }

  /** A lease that is missing or expired goes to a ready instance, whoever still believes in it. */
  lemma LeaseIsTaken(w: World, a: Instance, b: Instance)
    requires Leads(w, a) && Ready(w, b) && a != b
    requires w.doc.Some? ==> w.doc.value.expiresAt <= w.clock
    ensures BothMayLead(w, a, b)
  {
    var w1 := Next(w, SendAcquire(b));
    var w2 := Next(w1, RunAcquire(b));
    var w3 := Next(w2, Receive(b));
    assert DisciplinedRun(w3, []) && Leads(Run(w3, []), a) && Leads(Run(w3, []), b);
    MayLeadBefore(w2, Receive(b), a, b);
    MayLeadBefore(w1, RunAcquire(b), a, b);
    MayLeadBefore(w, SendAcquire(b), a, b);
  }

  /**
   * The acquire arm is necessary.  Whenever an instance breaks it with an acquire that can be
   * granted, disciplined steps can follow after which two instances lead.
   */
  lemma AcquireBeforeLeftoverBreaksExclusion(w: World, a: Instance, b: Instance)
    requires Inv(w) && MayBeGranted(w, a) && a != b && Ready(w, b)
    requires !Disciplined(w, SendAcquire(a))
    ensures BothMayLead(Next(w, SendAcquire(a)), a, b)
  {
    assert PeerInv(w, a);
    var w0 := Next(w, SendAcquire(a));
    var w1 := Next(w0, RunAcquire(a));
    if w.peers[a].releasing {
      DeletedLeaseIsTaken(w1, a, b);
    } else {
      var now :| now in w.peers[a].strays && now < w.clock;
      StrayShortensLease(w1, a, b, now);
    }
    MayLeadBefore(w0, RunAcquire(a), a, b);
  }

  /** The late upsert carries an older expiry, so the document expires before the grant that is believed. */
  lemma StrayShortensLease(w: World, a: Instance, b: Instance, now: int)
    requires Ready(w, b) && a != b && a in w.peers && w.peers[a].alive
    requires now in w.peers[a].strays && now < w.clock
    requires w.peers[a].call == Ran(true, w.clock + w.peers[a].ttl) && 0 < w.peers[a].ttl
    requires w.doc.Some? && w.doc.value.owner == a
    ensures BothMayLead(w, a, b)
  {
    var w1 := Next(w, Receive(a));
    var w2 := Next(w1, RunStray(a, now));
    var wait := Advance(Max(0, now + w.peers[a].ttl - w.clock));
    LeaseIsTaken(Next(w2, wait), a, b);
    MayLeadBefore(w2, wait, a, b);
    MayLeadBefore(w1, RunStray(a, now), a, b);
    MayLeadBefore(w, Receive(a), a, b);
  }

  lemma MayLeadBefore(w: World, s: Step, a: Instance, b: Instance)
    requires Disciplined(w, s) && BothMayLead(Next(w, s), a, b)
    ensures BothMayLead(w, a, b)
  {
    var steps :| DisciplinedRun(Next(w, s), steps)
                 && Leads(Run(Next(w, s), steps), a) && Leads(Run(Next(w, s), steps), b);
    RunCons(w, s, steps);
    DisciplinedCons(w, s, steps);
  }

  lemma DisciplinedCons(w: World, s: Step, steps: seq<Step>)
    requires Disciplined(w, s) && DisciplinedRun(Next(w, s), steps)
    ensures DisciplinedRun(w, [s] + steps)
  {
    var all := [s] + steps;
    assert all[..0] == [];
    forall k | 0 < k < |all| ensures Disciplined(Run(w, all[..k]), all[k]) {
      RunCons(w, s, steps[..k - 1]);
      assert all[..k] == [s] + steps[..k - 1];
    }
  }

  lemma {:induction false} RunCons(w: World, s: Step, steps: seq<Step>)
    ensures Run(w, [s] + steps) == Run(Next(w, s), steps)
  {
    var all, n := [s] + steps, |steps| - 1;
    if steps == [] {
      assert all[..0] == [];
    } else {
      RunCons(w, s, steps[..n]);
      assert all[..|all| - 1] == [s] + steps[..n];
    }
  }

  /**
   * Both kinds of outstanding renewal are reached from the very beginning by disciplined
   * steps: a leader whose upsert has not run, and one that only lacks the reply.
   */
  lemma OutstandingRenewalIsReachable(a: Instance, b: Instance, ttl: nat)
    requires a != b && 0 < ttl
    ensures exists w :: Reachable(w) && Leads(w, a) && Ready(w, b) && w.peers[a].call.Sent?
    ensures exists w :: Reachable(w) && Leads(w, a) && Ready(w, b) && w.peers[a].call.Ran?
  {
    var leading := FirstLeader(a, b, ttl);
    var renewing := Then(leading, SendAcquire(a));
    assert Leads(renewing, a) && Ready(renewing, b) && renewing.peers[a].call.Sent?;
    var renewed := Then(renewing, RunAcquire(a));
    assert Leads(renewed, a) && Ready(renewed, b) && renewed.peers[a].call.Ran?;
  }

  /** So are both kinds of leftover: a delete still to run, and an abandoned upsert still to run. */
  lemma LeftoversAreReachable(a: Instance, b: Instance, ttl: nat)
    requires a != b && 0 < ttl
    ensures exists w :: Reachable(w) && MayBeGranted(w, a) && Ready(w, b) && w.peers[a].releasing
    ensures exists w :: Reachable(w) && MayBeGranted(w, a) && Ready(w, b)
                        && !w.peers[a].releasing && !Disciplined(w, SendAcquire(a))
  {
    var releasing := FirstLeader(a, b, ttl);
    releasing := Then(releasing, SendRelease(a));
    assert MayBeGranted(releasing, a) && Ready(releasing, b) && releasing.peers[a].releasing;
    var abandoned := FirstAbandoned(a, b, ttl);
  }

  lemma FirstAbandoned(a: Instance, b: Instance, ttl: nat) returns (w: World)
    requires a != b && 0 < ttl
    ensures Reachable(w) && MayBeGranted(w, a) && Ready(w, b)
    ensures !w.peers[a].releasing && !Disciplined(w, SendAcquire(a))
  {
    w := FirstSent(a, b, ttl);
    w := Then(w, LoseAcquire(a));
    w := Then(w, Advance(1));
    assert 0 in w.peers[a].strays;
  }

  /** A leader whose old lease has expired may also be waiting for a renewal that brings it a live one. */
  lemma LateRenewalIsReachable(a: Instance, b: Instance, ttl: nat) returns (w: World)
    requires a != b && 0 < ttl
    ensures Reachable(w) && MayRelease(w, a) && Ready(w, b)
    ensures !Leads(w, a) && !Disciplined(w, SendRelease(a))
  {
    w := FirstLeader(a, b, ttl);
    w := Then(w, Advance(ttl));
    w := Then(w, SendAcquire(a));
  }

  lemma FirstSent(a: Instance, b: Instance, ttl: nat) returns (w: World)
    requires a != b && 0 < ttl
    ensures Reachable(w) && w.clock == 0 && w.doc == None && Ready(w, b)
    ensures a in w.peers && w.peers[a] == Peer(ttl, true, false, 0, Sent(0), false, multiset{})
  {
    assert DisciplinedRun(Genesis, []) && Run(Genesis, []) == Genesis;
    w := Then(Genesis, Join(a, ttl));
    w := Then(w, Join(b, ttl));
    w := Then(w, SendAcquire(a));
  }

  lemma FirstLeader(a: Instance, b: Instance, ttl: nat) returns (w: World)
    requires a != b && 0 < ttl
    ensures Reachable(w) && w.clock == 0 && w.doc == Some(LeaseDoc(a, ttl, 0, 0)) && Ready(w, b)
    ensures a in w.peers && w.peers[a] == Peer(ttl, true, true, ttl, Idle, false, multiset{})
  {
    w := FirstSent(a, b, ttl);
    w := Then(w, RunAcquire(a));
    w := Then(w, Receive(a));
  }

  /** Disciplined steps lead from reachable worlds to reachable worlds. */
  lemma Then(w: World, s: Step) returns (w': World)
    requires Reachable(w) && Disciplined(w, s)
    ensures Reachable(w') && w' == Next(w, s)
  {
    w' := Next(w, s);
    var steps :| DisciplinedRun(Genesis, steps) && Run(Genesis, steps) == w;
    DisciplinedSnoc(Genesis, steps, s);
  }

  lemma DisciplinedSnoc(w: World, steps: seq<Step>, s: Step)
    requires DisciplinedRun(w, steps) && Disciplined(Run(w, steps), s)
    ensures DisciplinedRun(w, steps + [s]) && Run(w, steps + [s]) == Next(Run(w, steps), s)
  {
    var all := steps + [s];
    assert all[..|steps|] == steps;
    forall k | 0 <= k < |all| ensures Disciplined(Run(w, all[..k]), all[k]) {
      if k < |steps| { assert all[..k] == steps[..k]; }
    }
  }

  lemma RunThree(w: World, steps: seq<Step>)
    requires |steps| == 3
    ensures Run(w, steps) == Next(Next(Next(w, steps[0]), steps[1]), steps[2])
  {
    assert steps[..2][..1] == [steps[0]] && steps[..1][..0] == [];
    assert Run(w, [steps[0]]) == Next(w, steps[0]) by { assert [steps[0]][..0] == []; }
  }

  /**
   * The TTL index is garbage collection only: for every reading less than an hour old, an
   * acquire is granted after a sweep exactly when it would have been granted before.
   */
  lemma SweepChangesNoAnswer(w: World, id: Instance, now: int, ttl: nat)
    requires w.clock - 3_600_000 <= now
    ensures Upsert(Next(w, Sweep).doc, id, now, ttl).1.Granted? <==> Upsert(w.doc, id, now, ttl).1.Granted?
    ensures Next(w, Sweep).peers == w.peers && Next(w, Sweep).clock == w.clock
  {
  }

  // ---------------------------------------------------------------- failover

  /** An upsert of the instance's own is executed, whether it is still awaited or not. */
  predicate Renews(s: Step, id: Instance) {
    s == RunAcquire(id) || (s.RunStray? && s.id == id)
  }

  /** Without an upsert of its own, the holder's document can only stay as it was or stop naming it. */
  lemma {:induction false} UnrenewedLeaseStays(w: World, steps: seq<Step>, holder: Instance)
    requires forall k :: 0 <= k < |steps| ==> !Renews(steps[k], holder)
    ensures var w' := Run(w, steps);
            w'.doc.Some? && w'.doc.value.owner == holder ==> w'.doc == w.doc
  {
    if steps != [] {
      UnrenewedLeaseStays(w, steps[..|steps| - 1], holder);
    }
  }

  /**
   * Failover within one TTL.  Once the holder stops renewing, an acquire whose clock reading
   * is at least the holder's TTL later is granted, unless a third instance holds a live lease.
   */
  lemma Failover(w: World, steps: seq<Step>, holder: Instance, id: Instance, now: int, ttl: nat)
    requires Inv(w) && w.doc.Some? && w.doc.value.owner == holder
    requires forall k :: 0 <= k < |steps| ==> !Renews(steps[k], holder)
    requires w.clock + w.peers[holder].ttl <= now
    ensures var doc := Run(w, steps).doc;
            || Upsert(doc, id, now, ttl).1.Granted?
            || (doc.Some? && doc.value.owner !in {holder, id} && now < doc.value.expiresAt)
  {
    UnrenewedLeaseStays(w, steps, holder);
  }

  /** `SchedulerLock.Acquire` is the three protocol steps taken without interruption. */
  lemma UninterruptedAcquire(w: World, id: Instance)
    requires id in w.peers && w.peers[id].alive && w.peers[id].call.Idle?
    ensures var w' := Run(w, [SendAcquire(id), RunAcquire(id), Receive(id)]);
            var (doc, reply) := Upsert(w.doc, id, w.clock, w.peers[id].ttl);
            && w'.doc == doc && w'.clock == w.clock
            && w'.peers == w.peers[id := w.peers[id].(isLeader := reply.Granted?,
                             leaseUntil := if reply.Granted? then doc.value.expiresAt else w.peers[id].leaseUntil)]
  {
    RunThree(w, [SendAcquire(id), RunAcquire(id), Receive(id)]);
  }

  /**
   * An acquire that is given up on ends leadership, whether it had run or not; only one that
   * had not run stays behind and may still run.
   */
  lemma LostAcquire(w: World, id: Instance)
    requires id in w.peers && w.peers[id].alive && w.peers[id].call.Idle?
    ensures var w' := Next(Next(w, SendAcquire(id)), LoseAcquire(id));
            && w'.doc == w.doc && w'.clock == w.clock
            && w'.peers == w.peers[id := w.peers[id].(isLeader := false,
                                                      strays := w.peers[id].strays + multiset{w.clock})]
    ensures var w' := Next(Next(Next(w, SendAcquire(id)), RunAcquire(id)), LoseReply(id));
            && w'.doc == Upsert(w.doc, id, w.clock, w.peers[id].ttl).0 && w'.clock == w.clock
            && w'.peers == w.peers[id := w.peers[id].(isLeader := false)]
  {
  }

  /** A release by a leader ends leadership at once and deletes the document if it still is its own. */
  lemma UninterruptedRelease(w: World, id: Instance)
    requires id in w.peers && w.peers[id].alive && w.peers[id].isLeader && !w.peers[id].releasing
    ensures var w' := Next(Next(w, SendRelease(id)), RunRelease(id));
            && w'.doc == (if w.doc.Some? && w.doc.value.owner == id then None else w.doc) && w'.clock == w.clock
            && w'.peers == w.peers[id := w.peers[id].(isLeader := false)]
    ensures !Next(w, SendRelease(id)).peers[id].isLeader
  {
  }
}
