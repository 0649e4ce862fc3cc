/**
 * Leader election composed with the scheduler tick: who may have checks in flight, and when.
 *
 * A tick acquires the lease once, at its start, and never again until the whole pool has
 * drained; `ticking` keeps a second tick from starting meanwhile.
 */
module WorkExclusivity {
  import opened Common
  import L = Lease

  type MonitorId = nat

  /** `released` says that leadership was released during the tick, by a shutdown that waited long enough. */
  datatype Tick = Resting | Acquiring | Leading(released: bool) | Checking(inFlight: set<MonitorId>, released: bool)

  datatype Cluster = Cluster(lease: L.World, ticks: map<L.Instance, Tick>) {
    function TickOf(id: L.Instance): Tick {
      if id in ticks then ticks[id] else Resting
    }

    predicate IsChecking(id: L.Instance) {
      TickOf(id).Checking?
    }
  }

  datatype Step =
    | Outside(s: L.Step)
    | StartTick(id: L.Instance)
    | Answer(id: L.Instance)
    | NoAnswer(id: L.Instance)
    | Launch(id: L.Instance, due: set<MonitorId>)
    | Finish(id: L.Instance, monitor: MonitorId)
    | Crash(id: L.Instance)

  /** Protocol steps that are not taken by the scheduler loop itself. */
  predicate IsOutside(s: L.Step) {
    || s.Advance? || s.Join? || s.RunAcquire? || s.RunStray? || s.DropStray? || s.Sweep?
    || s.SendRelease? || s.RunRelease? || s.LoseRelease?
  }

  /** The effect of a cluster step on the lease protocol. */
  function Project(c: Cluster, s: Step): L.Step {
    match s
    case Outside(p) => if IsOutside(p) then p else L.Advance(0)
    case StartTick(id) => if MayTick(c, id) then L.SendAcquire(id) else L.Advance(0)
    case Answer(id) => if Awaiting(c, id) then L.Receive(id) else L.Advance(0)
    case NoAnswer(id) =>
      if !Awaiting(c, id) then L.Advance(0)
      else if c.lease.peers[id].call.Sent? then L.LoseAcquire(id) else L.LoseReply(id)
    case Launch(_, _) => L.Advance(0)
    case Finish(_, _) => L.Advance(0)
    case Crash(id) => L.Crash(id)
  }

  /** The release is really sent. */
  predicate Releases(c: Cluster, p: L.Step) {
    && p.SendRelease? && p.id in c.lease.peers
    && c.lease.peers[p.id].alive && c.lease.peers[p.id].isLeader && !c.lease.peers[p.id].releasing
  }

  /** The shutdown does not stop the tick: its checks stay in flight. */
  function Released(t: Tick): Tick {
    match t
    case Leading(_) => Leading(true)
    case Checking(inFlight, _) => Checking(inFlight, true)
    case _ => t
  }

  predicate MayTick(c: Cluster, id: L.Instance) {
    id in c.lease.peers && c.TickOf(id) == Resting && c.lease.peers[id].alive && c.lease.peers[id].call.Idle?
  }

  predicate Awaiting(c: Cluster, id: L.Instance) {
    id in c.lease.peers && c.TickOf(id) == Acquiring && c.lease.peers[id].alive && !c.lease.peers[id].call.Idle?
  }

  function NextTick(c: Cluster, s: Step): map<L.Instance, Tick> {
    match s
    case Outside(p) => if Releases(c, p) then c.ticks[p.id := Released(c.TickOf(p.id))] else c.ticks
    case StartTick(id) => if MayTick(c, id) then c.ticks[id := Acquiring] else c.ticks
    case Answer(id) =>
      if Awaiting(c, id) && c.lease.peers[id].call.Ran? then
        c.ticks[id := if c.lease.peers[id].call.granted then Leading(false) else Resting]
      else c.ticks
    case NoAnswer(id) => if Awaiting(c, id) then c.ticks[id := Resting] else c.ticks
    case Launch(id, due) =>
      if c.TickOf(id).Leading? then
        c.ticks[id := if due == {} then Resting else Checking(due, c.TickOf(id).released)]
      else c.ticks
    case Finish(id, m) =>
      if c.IsChecking(id) then
        var rest := c.TickOf(id).inFlight - {m};
        c.ticks[id := if rest == {} then Resting else Checking(rest, c.TickOf(id).released)]
      else c.ticks
    case Crash(id) => c.ticks[id := Resting]
  }

  function Next(c: Cluster, s: Step): Cluster {
    Cluster(L.Next(c.lease, Project(c, s)), NextTick(c, s))
  }

  function Run(c: Cluster, steps: seq<Step>): Cluster {
    if steps == [] then c else Next(Run(c, steps[..|steps| - 1]), steps[|steps| - 1])
  }

  const Genesis := Cluster(L.Genesis, map[])

  /** The loop starts its ticks, and the shutdown its releases, as the lease protocol requires. */
  predicate Disciplined(c: Cluster, s: Step) {
    L.Disciplined(c.lease, Project(c, s))
  }

  ghost predicate DisciplinedRun(c: Cluster, steps: seq<Step>) {
    forall k :: 0 <= k < |steps| ==> Disciplined(Run(c, steps[..k]), steps[k])
  }

  /**
   * A tick that was granted the lease still believes it leads unless it was released, and
   * calls are only ever outstanding inside a tick, or after a crash.
   */
  ghost predicate Inv(c: Cluster) {
    L.Inv(c.lease) && forall id :: TickOk(c, id)
  }

  /** What the invariant says of one instance's tick. */
  predicate TickOk(c: Cluster, id: L.Instance) {
    && (c.TickOf(id) != Resting ==>
          && id in c.lease.peers
          && (c.TickOf(id) == Acquiring <==> !c.lease.peers[id].call.Idle?)
          && (c.TickOf(id) != Acquiring && !c.TickOf(id).released ==> c.lease.peers[id].isLeader))
    && (id in c.lease.peers && c.lease.peers[id].alive && !c.lease.peers[id].call.Idle? ==> c.TickOf(id) == Acquiring)
  }

  lemma OutsideKeepsTick(c: Cluster, s: Step, id: L.Instance)
    requires TickOk(c, id) && s.Outside?
    ensures TickOk(Next(c, s), id)
  {
  }

  lemma LoopKeepsTick(c: Cluster, s: Step, id: L.Instance)
    requires TickOk(c, id) && !s.Outside?
    ensures TickOk(Next(c, s), id)
  {
  }

  lemma InvPreserved(c: Cluster, s: Step)
    requires Inv(c) && Disciplined(c, s)
    ensures Inv(Next(c, s))
  {
    L.InvPreserved(c.lease, Project(c, s));
    forall id ensures TickOk(Next(c, s), id) {
      assert TickOk(c, id);
      if s.Outside? { OutsideKeepsTick(c, s, id); } else { LoopKeepsTick(c, s, id); }
    }
  }

  lemma {:induction false} InvReachable(steps: seq<Step>)
    requires DisciplinedRun(Genesis, steps)
    ensures Inv(Run(Genesis, steps))
  {
    if steps != [] {
      var n := |steps| - 1;
      forall k | 0 <= k < n ensures Disciplined(Run(Genesis, steps[..n][..k]), steps[..n][k]) {
        assert steps[..n][..k] == steps[..k];
      }
      InvReachable(steps[..n]);
      InvPreserved(Run(Genesis, steps[..n]), steps[n]);
    }
  }

  predicate OutlivedLease(c: Cluster, id: L.Instance)
    requires id in c.lease.peers
  {
    c.lease.peers[id].leaseUntil <= c.lease.clock
  }

  /**
   * Conditional work exclusivity, in disciplined runs: if two instances have checks in flight
   * at the same time, one of them has outlived the lease it was granted at the start of its
   * tick, or has released it in the middle of the tick.
   */
  lemma WorkExclusive(steps: seq<Step>, a: L.Instance, b: L.Instance)
    requires DisciplinedRun(Genesis, steps) && a != b
    requires Run(Genesis, steps).IsChecking(a) && Run(Genesis, steps).IsChecking(b)
    ensures var c := Run(Genesis, steps);
            && a in c.lease.peers && b in c.lease.peers
            && (OutlivedLease(c, a) || OutlivedLease(c, b) || c.TickOf(a).released || c.TickOf(b).released)
  {
    InvReachable(steps);
    var c := Run(Genesis, steps);
    assert TickOk(c, a) && TickOk(c, b);
    assert L.PeerInv(c.lease, a) && L.PeerInv(c.lease, b);
  }

  // ---------------------------------------------------------------- each hypothesis is necessary

  /**
   * Both instances have these checks in flight; b's tick is released by nobody and, given a TTL,
   * under a live lease.
   */
  ghost predicate SameChecks(c: Cluster, a: L.Instance, b: L.Instance, due: set<MonitorId>, outlived: bool,
                             released: bool) {
    && a in c.lease.peers && b in c.lease.peers
    && c.TickOf(a) == Checking(due, released) && c.TickOf(b) == Checking(due, false)
    && OutlivedLease(c, a) == outlived && (0 < c.lease.peers[b].ttl ==> !OutlivedLease(c, b))
  }

  /** Disciplined steps can lead to two instances with the same checks in flight. */
  ghost predicate MayFollow(c: Cluster, a: L.Instance, b: L.Instance, due: set<MonitorId>, outlived: bool,
                            released: bool) {
    exists steps :: DisciplinedRun(c, steps) && SameChecks(Run(c, steps), a, b, due, outlived, released)
  }

  lemma FollowsBefore(c: Cluster, s: Step, a: L.Instance, b: L.Instance, due: set<MonitorId>, outlived: bool,
                      released: bool)
    requires Disciplined(c, s) && MayFollow(Next(c, s), a, b, due, outlived, released)
    ensures MayFollow(c, a, b, due, outlived, released)
  {
    var steps :| DisciplinedRun(Next(c, s), steps) && SameChecks(Run(Next(c, s), steps), a, b, due, outlived, released);
    RunCons(c, s, steps);
    DisciplinedCons(c, s, steps);
  }

  lemma {:induction false} RunCons(c: Cluster, s: Step, steps: seq<Step>)
    ensures Run(c, [s] + steps) == Run(Next(c, s), steps)
  {
    var all, n := [s] + steps, |steps| - 1;
    if steps == [] {
      assert all[..0] == [];
    } else {
      RunCons(c, s, steps[..n]);
      assert all[..|all| - 1] == [s] + steps[..n];
    }
  }

  lemma DisciplinedCons(c: Cluster, s: Step, steps: seq<Step>)
    requires Disciplined(c, s) && DisciplinedRun(Next(c, s), steps)
    ensures DisciplinedRun(c, [s] + steps)
  {
    var all := [s] + steps;
    assert all[..0] == [];
    forall k | 0 < k < |all| ensures Disciplined(Run(c, all[..k]), all[k]) {
      RunCons(c, s, steps[..k - 1]);
      assert all[..k] == [s] + steps[..k - 1];
    }
  }

  predicate IsFree(c: Cluster) {
    c.lease.doc.Some? ==> c.lease.doc.value.expiresAt <= c.lease.clock
  }

  lemma StartStep(c: Cluster, b: L.Instance)
    requires MayTick(c, b)
    ensures var p := c.lease.peers[b];
            Next(c, StartTick(b)) == Cluster(c.lease.(peers := c.lease.peers[b := p.(call := L.Sent(c.lease.clock))]),
                                             c.ticks[b := Acquiring])
  {
  }

  lemma GrantStep(c: Cluster, b: L.Instance)
    requires b in c.lease.peers && c.lease.peers[b].call == L.Sent(c.lease.clock)
    requires L.Upsert(c.lease.doc, b, c.lease.clock, c.lease.peers[b].ttl).1.Granted?
    ensures var p, now := c.lease.peers[b], c.lease.clock;
            Next(c, Outside(L.RunAcquire(b)))
            == Cluster(c.lease.(doc := L.Upsert(c.lease.doc, b, now, p.ttl).0,
                                peers := c.lease.peers[b := p.(call := L.Ran(true, now + p.ttl))]), c.ticks)
  {
  }

  lemma AnswerStep(c: Cluster, b: L.Instance)
    requires Awaiting(c, b) && c.lease.peers[b].call.Ran? && c.lease.peers[b].call.granted
    ensures var p := c.lease.peers[b];
            Next(c, Answer(b))
            == Cluster(c.lease.(peers := c.lease.peers[
                         b := p.(call := L.Idle, isLeader := true, leaseUntil := p.call.until)]),
                       c.ticks[b := Leading(false)])
  {
  }

  /** What an uninterrupted tick start that is granted the lease leaves behind. */
  function Taken(c: Cluster, b: L.Instance): Cluster
    requires b in c.lease.peers
  {
    var p, now := c.lease.peers[b], c.lease.clock;
    Cluster(c.lease.(doc := L.Upsert(c.lease.doc, b, now, p.ttl).0,
                     peers := c.lease.peers[b := p.(isLeader := true, leaseUntil := now + p.ttl)]),
            c.ticks[b := Leading(false)])
  }

  lemma TakeSteps(c: Cluster, b: L.Instance)
    requires MayTick(c, b) && L.Upsert(c.lease.doc, b, c.lease.clock, c.lease.peers[b].ttl).1.Granted?
    ensures Next(Next(Next(c, StartTick(b)), Outside(L.RunAcquire(b))), Answer(b)) == Taken(c, b)
  {
    StartStep(c, b);
    var c1 := Next(c, StartTick(b));
    GrantStep(c1, b);
    AnswerStep(Next(c1, Outside(L.RunAcquire(b))), b);
  }

  /** An expired or missing lease goes to whoever ticks next; nobody else's tick or lease is touched. */
  lemma TakesOver(c: Cluster, b: L.Instance)
    requires MayTick(c, b) && IsFree(c)
    ensures Run(c, [StartTick(b), Outside(L.RunAcquire(b)), Answer(b)]) == Taken(c, b)
  {
    TakeSteps(c, b);
    RunCons(c, StartTick(b), [Outside(L.RunAcquire(b)), Answer(b)]);
    RunCons(Next(c, StartTick(b)), Outside(L.RunAcquire(b)), [Answer(b)]);
    RunCons(Next(Next(c, StartTick(b)), Outside(L.RunAcquire(b))), Answer(b), []);
    assert [StartTick(b)] + [Outside(L.RunAcquire(b)), Answer(b)]
           == [StartTick(b), Outside(L.RunAcquire(b)), Answer(b)];
    assert [Outside(L.RunAcquire(b))] + [Answer(b)] == [Outside(L.RunAcquire(b)), Answer(b)];
    assert [Answer(b)] + [] == [Answer(b)];
  }

  /** Over a free lease another instance puts a's checks in flight a second time. */
  lemma SecondWorkerFollows(c: Cluster, a: L.Instance, b: L.Instance)
    requires a in c.lease.peers && c.IsChecking(a) && c.TickOf(a).inFlight != {} && a != b
    requires IsFree(c) && MayTick(c, b) && Disciplined(c, StartTick(b))
    ensures MayFollow(c, a, b, c.TickOf(a).inFlight, OutlivedLease(c, a), c.TickOf(a).released)
  {
    var due, outlived, released := c.TickOf(a).inFlight, OutlivedLease(c, a), c.TickOf(a).released;
    var c1 := Next(c, StartTick(b));
    var c2 := Next(c1, Outside(L.RunAcquire(b)));
    var c3 := Next(c2, Answer(b));
    TakeSteps(c, b);
    LaunchedTwice(c3, a, b);
    FollowsBefore(c2, Answer(b), a, b, due, outlived, released);
    FollowsBefore(c1, Outside(L.RunAcquire(b)), a, b, due, outlived, released);
    FollowsBefore(c, StartTick(b), a, b, due, outlived, released);
  }

  lemma LaunchedTwice(c: Cluster, a: L.Instance, b: L.Instance)
    requires a in c.lease.peers && b in c.lease.peers && a != b
    requires c.IsChecking(a) && c.TickOf(a).inFlight != {} && c.TickOf(b) == Leading(false)
    requires 0 < c.lease.peers[b].ttl ==> !OutlivedLease(c, b)
    ensures MayFollow(c, a, b, c.TickOf(a).inFlight, OutlivedLease(c, a), c.TickOf(a).released)
  {
    var due, outlived, released := c.TickOf(a).inFlight, OutlivedLease(c, a), c.TickOf(a).released;
    var c' := Next(c, Launch(b, due));
    assert DisciplinedRun(c', []) && Run(c', []) == c';
    assert SameChecks(Run(c', []), a, b, due, outlived, released);
    FollowsBefore(c, Launch(b, due), a, b, due, outlived, released);
  }

  /**
   * The first hypothesis: once a tick has outlived its lease and nobody renewed the document,
   * any resting instance can put the very same checks in flight.
   */
  lemma OverrunAdmitsSecondWorker(c: Cluster, a: L.Instance, b: L.Instance)
    requires Inv(c) && c.IsChecking(a) && c.TickOf(a).inFlight != {} && a != b
    requires IsFree(c) && MayTick(c, b) && Disciplined(c, StartTick(b))
    ensures a in c.lease.peers
            && MayFollow(c, a, b, c.TickOf(a).inFlight, OutlivedLease(c, a), c.TickOf(a).released)
  {
    assert TickOk(c, a);
    SecondWorkerFollows(c, a, b);
  }

  /**
   * The second: a shutdown that releases while checks are in flight lets any resting instance
   * start them as well, although the lease was still live.
   */
  lemma ReleaseMidTickAdmitsSecondWorker(c: Cluster, a: L.Instance, b: L.Instance)
    requires Inv(c) && c.IsChecking(a) && c.TickOf(a).inFlight != {} && a != b
    requires MayTick(c, b) && Disciplined(c, StartTick(b)) && L.Leads(c.lease, a)
    ensures MayFollow(c, a, b, c.TickOf(a).inFlight, false, true)
  {
    var send, run := Outside(L.SendRelease(a)), Outside(L.RunRelease(a));
    ReleaseSent(c, a);
    var c1 := Next(c, send);
    ReleaseRun(c1, a);
    SecondWorkerFollows(Next(c1, run), a, b);
    FollowsBefore(c1, run, a, b, c.TickOf(a).inFlight, false, true);
    FollowsBefore(c, send, a, b, c.TickOf(a).inFlight, false, true);
  }

  lemma ReleaseSent(c: Cluster, a: L.Instance)
    requires Inv(c) && c.IsChecking(a) && L.Leads(c.lease, a)
    ensures var p := c.lease.peers[a];
            && Disciplined(c, Outside(L.SendRelease(a)))
            && Next(c, Outside(L.SendRelease(a)))
               == Cluster(c.lease.(peers := c.lease.peers[a := p.(isLeader := false, releasing := true)]),
                          c.ticks[a := Checking(c.TickOf(a).inFlight, true)])
            && c.lease.doc.Some? && c.lease.doc.value.owner == a
  {
    assert TickOk(c, a) && L.PeerInv(c.lease, a);
  }

  lemma ReleaseRun(c: Cluster, a: L.Instance)
    requires a in c.lease.peers && c.lease.peers[a].releasing
    requires c.lease.doc.Some? && c.lease.doc.value.owner == a
    ensures Next(c, Outside(L.RunRelease(a)))
            == Cluster(c.lease.(doc := None, peers := c.lease.peers[a := c.lease.peers[a].(releasing := false)]),
                       c.ticks)
  {
  }

  /** A leader whose lease the document no longer shows puts checks in flight that another instance takes on too. */
  lemma LostLeaseFollows(c: Cluster, a: L.Instance, b: L.Instance, due: set<MonitorId>)
    requires a in c.lease.peers && c.TickOf(a) == Leading(false) && !OutlivedLease(c, a) && a != b && due != {}
    requires IsFree(c) && MayTick(c, b) && Disciplined(c, StartTick(b))
    ensures MayFollow(c, a, b, due, false, false)
  {
    var c1 := Next(c, Launch(a, due));
    SecondWorkerFollows(c1, a, b);
    FollowsBefore(c, Launch(a, due), a, b, due, false, false);
  }

  /** The tick of a is granted, and then its own pending delete removes the document. */
  lemma DeletedUnderTickFollows(c: Cluster, a: L.Instance, b: L.Instance, due: set<MonitorId>)
    requires L.Pending(c.lease, a) && c.TickOf(a) == Acquiring && a != b && due != {}
    requires MayTick(c, b) && Disciplined(c, StartTick(b))
    ensures MayFollow(c, a, b, due, false, false)
  {
    AnswerStep(c, a);
    var c1 := Next(c, Answer(a));
    ReleaseRun(c1, a);
    LostLeaseFollows(Next(c1, Outside(L.RunRelease(a))), a, b, due);
    FollowsBefore(c1, Outside(L.RunRelease(a)), a, b, due, false, false);
    FollowsBefore(c, Answer(a), a, b, due, false, false);
  }

  /** The tick of a is granted, and then its own older upsert shortens the lease in the document. */
  lemma ShortenedUnderTickFollows(c: Cluster, a: L.Instance, b: L.Instance, due: set<MonitorId>, now: int)
    requires a in c.lease.peers && c.TickOf(a) == Leading(false) && a != b && due != {}
    requires now in c.lease.peers[a].strays && now < c.lease.clock
    requires c.lease.peers[a].leaseUntil == c.lease.clock + c.lease.peers[a].ttl && 0 < c.lease.peers[a].ttl
    requires c.lease.doc.Some? && c.lease.doc.value.owner == a
    requires MayTick(c, b) && Disciplined(c, StartTick(b)) && c.lease.peers[b].strays == multiset{}
    ensures MayFollow(c, a, b, due, false, false)
  {
    var stray := Outside(L.RunStray(a, now));
    var wait := Outside(L.Advance(Max(0, now + c.lease.peers[a].ttl - c.lease.clock)));
    var c1 := Next(c, stray);
    assert c1.lease.doc.value.expiresAt == now + c.lease.peers[a].ttl && c1.ticks == c.ticks;
    LostLeaseFollows(Next(c1, wait), a, b, due);
    FollowsBefore(c1, wait, a, b, due, false, false);
    FollowsBefore(c, stray, a, b, due, false, false);
  }

  /**
   * The third, on the side of the acquire: a tick that starts over its instance's own pending
   * delete, or over an older upsert, can end with two instances on the same checks, neither
   * of which has outlived or released its lease.
   */
  lemma UndisciplinedTickAdmitsSecondWorker(c: Cluster, a: L.Instance, b: L.Instance, due: set<MonitorId>)
    requires Inv(c) && MayTick(c, a) && L.MayBeGranted(c.lease, a) && !Disciplined(c, StartTick(a))
    requires a != b && due != {} && MayTick(c, b) && L.Ready(c.lease, b)
    ensures MayFollow(Next(c, StartTick(a)), a, b, due, false, false)
  {
    var c0 := Next(c, StartTick(a));
    StartStep(c, a);
    GrantStep(c0, a);
    var c1 := Next(c0, Outside(L.RunAcquire(a)));
    if c.lease.peers[a].releasing {
      DeletedUnderTickFollows(c1, a, b, due);
    } else {
      var now :| now in c.lease.peers[a].strays && now < c.lease.clock;
      AnswerStep(c1, a);
      ShortenedUnderTickFollows(Next(c1, Answer(a)), a, b, due, now);
      FollowsBefore(c1, Answer(a), a, b, due, false, false);
    }
    FollowsBefore(c0, Outside(L.RunAcquire(a)), a, b, due, false, false);
  }

  /** And on the side of the release: a shutdown that releases while the tick is still acquiring. */
  lemma UndisciplinedReleaseAdmitsSecondWorker(c: Cluster, a: L.Instance, b: L.Instance, due: set<MonitorId>)
    requires Inv(c) && L.MayRelease(c.lease, a) && !Disciplined(c, Outside(L.SendRelease(a)))
    requires a != b && due != {} && MayTick(c, b) && L.Ready(c.lease, b)
    ensures MayFollow(Next(c, Outside(L.SendRelease(a))), a, b, due, false, false)
  {
    assert TickOk(c, a) && L.PeerInv(c.lease, a);
    var c0 := Next(c, Outside(L.SendRelease(a)));
    assert c0.TickOf(a) == Acquiring;
    if c.lease.peers[a].call.Sent? {
      var c1 := Next(c0, Outside(L.RunAcquire(a)));
      assert c1.ticks == c0.ticks && L.Pending(c1.lease, a);
      DeletedUnderTickFollows(c1, a, b, due);
      FollowsBefore(c0, Outside(L.RunAcquire(a)), a, b, due, false, false);
    } else {
      DeletedUnderTickFollows(c0, a, b, due);
    }
  }
}
