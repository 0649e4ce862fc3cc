# A verified model of the WatchTower monitoring engine

WatchTower checks HTTP targets from one of several process instances and opens and closes
incidents. This project models its monitoring engine in Dafny and proves what its parts promise
together, over whole runs:

- `Lease.dfy`: the lease document, the lock object, and the leader-election protocol that any
  number of instances follow when they interleave, lose replies, give up on calls that still run
  later, read stale clocks and crash.
- `WorkExclusivity.dfy`: that protocol composed with the scheduler tick: who may have checks in
  flight. `PoolBudget.dfy`, `TickBudget.dfy`: how long a tick can last, and a condition on the
  settings under which no tick outlives its lease.
- `CircuitBreaker.dfy`, `FlapDetection.dfy`: the two per-monitor state machines, each against an
  independent specification (a closed form in the number of failures; a statement about the whole
  result history).
- `Incidents.dfy`: the incident collection with its unique index, the service on it, and the
  protocol of any number of concurrent callers.
- `Checks.dfy`, `Scheduler.dfy`: one check with all its writes, and the tick as a class over the
  database.
- `Batches.dfy`: the checks of one batch interleaved between their writes, with owner activity
  going on meanwhile.
- `Fairness.dfy`, `Ticks.dfy`: starvation and rate over rounds of checks, and sequences of the
  scheduler's ticks, to which the theorems about runs and rounds are carried over.
- `Pool.dfy`: the shared-cursor worker pool, as shared state and as an object over an array.
- `Probe.dfy`, `Checker.dfy`: the HTTP attempt as an event machine, the object with its handlers,
  and the retry ladder.
- `ScopedDao.dfy`, `Uptime.dfy`, `StatusPages.dfy`: tenant scoping, windowed uptime, and public
  addresses.

Code that updates objects in place is a class whose methods are proved equal to functions; the
theorems are about those functions. Clock readings, probe events, jitter, database replies and
injected faults are parameters. In the protocols a step that is not enabled leaves the world as it
is, so every sequence of steps is a run.

## Where the code and its documentation differ

The model follows the code.

- `docs/SCHEDULER.md` says a failed HALF_OPEN probe reopens the breaker. `runCheck` passes the
  monitor as loaded, so a failed probe from OPEN persists HALF_OPEN and only the next failure
  reopens (`CheckKeepsInv`, `DeadTargetCycle`). The cooldown exponents are 0, 2, 3, 4, ….
- `docs/SCHEDULER.md` says a check deadline keeps the retry ladder within the interval. There is no
  such deadline. The ladder stays within an interval exactly when (R + 1) timeouts plus the longest
  draw of each of the R delays do, a silent target with unlucky draws reaching that worst case, or
  when the target's address is refused outright (`LadderFitsInterval`).
- A comment in `runCheck` says a failed incident transition is re-evaluated by the next check. It is
  not, because opening needs a confirmed UP status and closing a confirmed DOWN
  (`LostOpeningNotRetried`, `LostClosingNotRetried`). What ends the disagreement is exactly the next
  recorded transition, the opposite one, which announces nothing (`DisagreementEnds`). The schema's
  claim that status and incidents can never disagree holds as far as `AgreementUnderFaults` says.
- The service clamps an incident's duration at zero, and the save hook then recomputes it without
  the clamp. A forward clock does not make it non-negative (`StaleCloseStoresNegativeDuration`). What
  does is that no opening begins while a close of the same monitor that read an earlier clock is
  still to make its update (`TimelyDurations`); every opening that breaks this rule can be continued
  to a negative duration (`UntimelyOpenCanGoNegative`).
- Exactly one instance executes checks only while ticks end within their lease, no shutdown releases
  it over checks still in flight, and acquires and releases are disciplined (`WorkExclusive`); each
  of the three is necessary (`OverrunAdmitsSecondWorker`, `ReleaseMidTickAdmitsSecondWorker`,
  `UndisciplinedTickAdmitsSecondWorker`, `UndisciplinedReleaseAdmitsSecondWorker`).
- `docs/SCHEDULER.md` counts six renewals per lease. A tick renews once and then waits for its pool,
  so with the default settings one silent target makes its tick outlast the lease
  (`DefaultLeaseIsOutlasted`). Ticks stay within the TTL if it covers the overhead and the worst
  batch (`TickEndsInTime`, `FittingTicksExclude`).
- Leadership is exclusive while an instance does not release during an acquire that may still bring
  it a live lease, and does not acquire while a delete, or an older upsert it gave up on, may still
  run (`MutualExclusion`). Neither rule is enforced by the code. Breaking the second can end with two
  leaders whenever the acquire can be granted (`AcquireBeforeLeftoverBreaksExclusion`), breaking the
  first whenever the outstanding one can (`ReleaseDuringRenewalBreaksExclusion`, which covers every
  leader with a live lease by `LeaderMayRelease`), from situations that do arise
  (`OutstandingRenewalIsReachable`, `LateRenewalIsReachable`, `LeftoversAreReachable`).
- The interval floor holds between a recorded check and any later one (`RateFloor`). A check whose
  status write failed is repeated by the next tick, however soon (`UnrecordedCheckRepeats`).
- The due query serves the most overdue monitors first. That starves nobody while fewer than 500 of
  a batch are held back by open breakers or failing writes (`NotStarved`); while 500 more overdue
  ones are, a monitor is in no batch at all (`HeldBatchStarves`).
- A page whose slug was cut at a hyphen cannot be found under its own address; whoever owns the
  address without the hyphen answers there (`ReachableAtOwnAddress`).
- A comment says 2xx and 3xx answers are UP. One that carries a Location header once the redirect
  budget is spent is DOWN, whatever its status (`AnswerDecides`).
- The result of a probe shares its timings object with the probe, so a phase event that the platform
  still delivers after settlement can push the setup time beyond the total
  (`LateLookupOvertakesTotal`; exactly which ones do is `LatePhaseOvertakes`). Whether it delivers
  one once the request is destroyed is not decided by this code.

## Model

| member | source | states |
|---|---|---|
| `Lease.SchedulerLock.Acquire` | Backend/src/services/lock.service.js:53-90 | leadership is held exactly on an answered grant; a call that runs is granted iff the document is missing, expired at the reading or its own, and then leaves exactly the new owner, expiry and heartbeat with the acquisition time kept; a refusal means another owner's lease is live |
| `Lease.SchedulerLock.Release` | Backend/src/services/lock.service.js:99-109 | gives leadership up, deletes the document if it is its own and never one that names somebody else |
| `Lease.MutualExclusion` | Backend/src/services/lock.service.js:53-109 | in every disciplined run, with any instances, stale readings, lost replies, crashes and upserts that execute after they were given up on, at most one instance leads under a live lease, and the document names it at least that long |
| `Lease.ReleaseDuringRenewalBreaksExclusion` | Backend/src/jobs/scheduler.js:129-148 | whenever an instance releases while its outstanding acquire can still bring it a live lease, the old one expired or not, the upsert executable or executed, disciplined steps can follow after which two instances lead |
| `Lease.LeaderMayRelease` | Backend/src/jobs/scheduler.js:129-148 | that covers every leader with a live lease and an outstanding renewal |
| `Lease.RenewalOutlivesRelease` | Backend/src/services/lock.service.js:69-76 | in both cases the overtaken renewal is believed although the release has deleted the document |
| `Lease.AcquireBeforeLeftoverBreaksExclusion` | Backend/src/services/lock.service.js:76-89 | whenever an acquire that can be granted breaks the discipline, over a pending delete or an older abandoned upsert, disciplined steps can follow after which two instances lead |
| `Lease.OutstandingRenewalIsReachable` | Backend/src/jobs/scheduler.js:129-148 | disciplined steps from the start lead to a leader whose renewal has not run, and to one that only lacks the reply |
| `Lease.LateRenewalIsReachable` | Backend/src/jobs/scheduler.js:129-148 | disciplined steps from the start lead to a leader whose lease has expired and whose renewal can still bring a live one |
| `Lease.LeftoversAreReachable` | Backend/src/services/lock.service.js:76-109 | disciplined steps from the start lead to an instance that may be granted the lease while its delete, or an older upsert, may still run |
| `Lease.UnrenewedLeaseStays` | Backend/src/services/lock.service.js:58-68 | without an upsert of its holder, awaited or abandoned, the document stays as it was or stops naming the holder |
| `Lease.Failover` | Backend/src/services/lock.service.js:47-49 | an acquire reading the clock one TTL after the holder stopped renewing is granted unless a third instance holds a live lease |
| `Lease.UninterruptedAcquire` | Backend/src/services/lock.service.js:53-90 | an acquire that nothing interleaves with is the protocol's send, run and receive |
| `Lease.LostAcquire` | Backend/src/services/lock.service.js:76-89 | an acquire that is given up on ends leadership; it stays behind iff it had not run |
| `Lease.UninterruptedRelease` | Backend/src/services/lock.service.js:99-109 | a release that nothing interleaves with ends leadership and deletes the own document |
| `Lease.SweepChangesNoAnswer` | Backend/src/models/schedulerLock.model.js:28-30 | sweeping is garbage collection: no acquire with a reading of the last hour is answered differently after it |
| `WorkExclusivity.WorkExclusive` | Backend/src/jobs/scheduler.js:151-211 | in every disciplined run, if two instances have checks in flight at once, one of them has outlived the lease granted at the start of its tick, or a shutdown has released it in the middle of the tick |
| `WorkExclusivity.OverrunAdmitsSecondWorker` | Backend/src/jobs/scheduler.js:159-161 | once a lease has run out or is gone under a tick, disciplined steps let any resting instance put the same checks in flight |
| `WorkExclusivity.ReleaseMidTickAdmitsSecondWorker` | Backend/src/jobs/scheduler.js:135-145 | a shutdown that releases while checks are in flight lets any resting instance start them too, under a lease that was still live |
| `WorkExclusivity.UndisciplinedTickAdmitsSecondWorker` | Backend/src/jobs/scheduler.js:151-161 | a tick that starts over its own pending delete or older abandoned upsert can end with the same checks in flight twice, under live leases that nobody released |
| `WorkExclusivity.UndisciplinedReleaseAdmitsSecondWorker` | Backend/src/jobs/scheduler.js:129-148 | so can a shutdown that releases while the tick is still acquiring |
| `WorkExclusivity.TakesOver` | Backend/src/services/lock.service.js:58-76 | an expired or missing lease goes to whoever ticks next |
| `PoolBudget.EndsInTime` | Backend/src/utils/pool.js:19-38 | if the largest batch of longest tasks fits into the time given, every batch does, whatever its size, durations and order |
| `TickBudget.TickEndsInTime` | Backend/src/jobs/scheduler.js:174-205 | if the TTL covers the overhead and the worst batch, every tick ends within its TTL, whatever its targets do and the jitter draws |
| `TickBudget.FittingTicksExclude` | Backend/src/jobs/scheduler.js:151-211 | then two instances have checks in flight at once only after a release in the middle of a tick |
| `TickBudget.DefaultLeaseIsOutlasted` | Backend/src/config/scheduler.config.js:28-39 | the default settings do not satisfy that: one silent target keeps its tick running for at least the whole default lease |
| `CircuitBreaker.CooldownDoubles` | Backend/src/services/circuitBreaker.js:30-33 | the cooldown starts at the base, doubles per open and is capped |
| `CircuitBreaker.AllowedUnlessCoolingDown` | Backend/src/services/circuitBreaker.js:42-67 | a check is refused exactly while an open breaker's retry time lies ahead, and is let through as a probe, persisting HALF_OPEN, unless the breaker is closed |
| `CircuitBreaker.CheckKeepsInv` | Backend/src/services/circuitBreaker.js:42-128 | CLOSED iff failures are below the threshold; closed means cleared; open means a counter and the cooldown for it; success clears; a failed probe reopens iff it came from HALF_OPEN; cooldowns never shrink before a success |
| `CircuitBreaker.DeadTargetStep` | Backend/src/jobs/scheduler.js:308-322 | one more failure moves the breaker along its closed form, with the outcome patch taken from the unpatched monitor |
| `CircuitBreaker.DeadTargetCycle` | Backend/src/services/circuitBreaker.js:98-128 | after n failures of a target that never recovers, mode, counter, opening time and retry time are a closed form of n: exactly two probes between open periods |
| `CircuitBreaker.ProbesAreSingleAttempt` | Backend/src/jobs/scheduler.js:256-263 | every check past the threshold is a probe without retries |
| `CircuitBreaker.ProbeWaitsOutCooldown` | Backend/src/services/circuitBreaker.js:54-67 | the probe after the k-th opening starts no earlier than its retry time |
| `CircuitBreaker.ProbeComesWithCooldown` | Backend/src/services/circuitBreaker.js:54-67 | after the k-th opening a check is let through exactly from the moment the k-th cooldown has run out, as a probe |
| `CircuitBreaker.DeadTargetLoad` | Backend/src/services/circuitBreaker.js:30-33 | k openings and one further probe take at least the sum of the k cooldowns |
| `FlapDetection.CountersAreTrailingRuns` | Backend/src/jobs/scheduler.js:291-294 | the two counters are the lengths of the trailing failure and success runs |
| `FlapDetection.IsDownSnoc` | Backend/src/jobs/scheduler.js:301-305 | how one more result changes the history specification |
| `FlapDetection.StatusRefinesHistory` | Backend/src/jobs/scheduler.js:288-325 | for fixed thresholds and every history, status is DOWN iff some N consecutive failures were not followed by M consecutive successes |
| `Incidents.FindOngoing` | Backend/src/services/incident.service.js:89-92 | finds an ONGOING incident of the monitor iff there is one |
| `Incidents.IncidentCollection.Insert` | Backend/src/models/incidents.model.js:55-62 | the unique index accepts an insert iff no ONGOING incident of the monitor exists |
| `Incidents.IncidentDocument.PreSave` | Backend/src/models/incidents.model.js:73-77 | the hook overwrites the duration with the time from start to end in whole seconds, unclamped, whenever both are set |
| `Incidents.IncidentService.OpenIncident` | Backend/src/services/incident.service.js:53-127 | creates the incident as requested and announces it iff no ONGOING incident existed and no rival inserted one in between; otherwise returns the existing one untouched, or none iff the rival's is over already |
| `Incidents.IncidentService.CloseIncident` | Backend/src/services/incident.service.js:134-172 | resolves the ONGOING incident if there is one, with its end and its duration in whole seconds, announces it, and changes no other document; if the save throws, it is resolved without duration or announcement |
| `Incidents.CountIsZeroOrOne` | Backend/src/models/incidents.model.js:48-62 | under the index the ONGOING count is 0 or 1, and 1 iff a lookup finds one |
| `Incidents.CountInvPreserved` | Backend/src/services/incident.service.js:63-98 | every database step keeps opens = closes + ONGOING and the index |
| `Incidents.NotesInvPreserved` | Backend/src/services/incident.service.js:112-166 | every step keeps all announcements distinct and owed by at most one call |
| `Incidents.ExactlyOnce` | Backend/src/services/incident.service.js:53-172 | for any callers and interleaving: opens minus closes is the ONGOING count, which is 0 or 1, and each incident is announced at most once as OPENED and as CLOSED |
| `Incidents.AllAnnounced` | Backend/src/services/incident.service.js:105-166 | when every call has been seen through, exactly the transitions that happened have been announced, each once |
| `Incidents.DurationSign` | Backend/src/models/incidents.model.js:73-77 | a stored duration is the initial zero or the exact whole seconds, negative only if the end precedes the start |
| `Incidents.SavedDurationSign` | Backend/src/models/incidents.model.js:73-77 | once a close has saved its incident, in every run before and after, the stored duration is the time from start to end in whole seconds, negative iff the end precedes the start |
| `Incidents.TimelyDurations` | Backend/src/services/incident.service.js:134-155 | for any callers and interleaving in which no open begins under an older outstanding close of the monitor, no stored duration is negative and no incident ends before it began |
| `Incidents.UntimelyOpenCanGoNegative` | Backend/src/services/incident.service.js:53-155 | every open that begins under an older outstanding close can be continued to a stored negative duration |
| `Incidents.StaleCloseStoresNegativeDuration` | Backend/src/services/incident.service.js:134-155 | a close that read its clock before the incident was opened can resolve it and store a negative duration, on a forward clock |
| `Checks.IntervalSeconds` | Backend/src/jobs/scheduler.js:296-299 | never below the 5-second floor; a missing or zero interval means 60 |
| `Checks.SingleWriterUpdate` | Backend/src/jobs/scheduler.js:288-330 | the composed update is one flap step, one breaker step and a schedule anchored to now, and leaves the owner's settings alone |
| `Checks.NewMonitorSpec` | Backend/src/controllers/monitor.controller.js:65-100 | a new monitor is due at once, UP without a streak, with a closed breaker and the owner's settings |
| `Checks.OwnerOpSpec` | Backend/src/controllers/monitor.controller.js:65-155 | an owner's operation changes exactly one monitor, and of a stored one exactly its settings |
| `Checks.CheckKeepsBreakerInv` | Backend/src/jobs/scheduler.js:318-321 | breaker and failure counter stay in step through the composed update |
| `Checks.OpenedEffect` | Backend/src/jobs/scheduler.js:358-372 | an opening adds exactly one incident, as the check reports it, makes exactly this monitor's ONGOING and adds exactly one OPENED to its announcements |
| `Checks.ClosedEffect` | Backend/src/jobs/scheduler.js:373-389 | a closing changes exactly this monitor's incident, to resolved with its end and whole seconds, and adds exactly one CLOSED, unless its owner is gone or its save fails |
| `Checks.CheckKeepsAgreement` | Backend/src/jobs/scheduler.js:301-389 | a fault-free check of one monitor keeps status, incidents and announcements in agreement for all monitors |
| `Checks.OwnerKeepsAgreement` | Backend/src/controllers/monitor.controller.js:65-155 | creating, deleting and re-configuring monitors keeps the agreement |
| `Checks.OthersLeaveAlone` | Backend/src/jobs/scheduler.js:356-397 | a check of another monitor, whatever fails in it, leaves a monitor, its incident and its announcements alone |
| `Checks.AgreementOverRuns` | Backend/src/jobs/scheduler.js:301-389 | over every fault-free run with monitors created, deleted and re-configured at will: DOWN iff exactly one ONGOING incident, and announcements strictly alternate from OPENED |
| `Checks.AgreementUnderFaults` | Backend/src/jobs/scheduler.js:324-397 | with faults, agreement survives a check iff it made no transition or no fault hit between its status write and its incident call |
| `Checks.LostOpeningNotRetried` | Backend/src/jobs/scheduler.js:301-305 | after a check that confirmed DOWN and lost its incident call, no run in which this target keeps failing opens or announces the incident, whatever happens to all other monitors |
| `Checks.LostClosingNotRetried` | Backend/src/jobs/scheduler.js:301-305 | after a check that confirmed UP and lost its incident call, the incident stays ONGOING in every run in which this target keeps answering |
| `Checks.DisagreementEnds` | Backend/src/jobs/scheduler.js:301-325 | a monitor whose status and incidents disagree agrees again exactly with the next recorded transition, which changes and announces no incident |
| `Checks.BreakersOverRuns` | Backend/src/jobs/scheduler.js:308-330 | every run, faults and owner activity included, keeps the breaker invariant of every monitor |
| `Checks.SequentialDurations` | Backend/src/services/incident.service.js:149-155 | one scheduler on a forward clock stores no negative duration |
| `Checks.StoredStatusMatchesHistory` | Backend/src/jobs/scheduler.js:285-325 | the stored status of a new monitor is DOWN iff its performed checks confirm it, whatever the breaker skipped in between |
| `Checks.BreakerFollowsDeadTarget` | Backend/src/jobs/scheduler.js:308-330 | the stored breaker of a failing monitor runs through the dead-target cycle |
| `Checks.DeadTargetIsSpared` | Backend/src/jobs/scheduler.js:187-193 | stored checks of a dead target are spaced by at least the cooldowns in force |
| `Scheduler.Selected` | Backend/src/jobs/scheduler.js:175-203 | only due, stored monitors that are not in flight are started |
| `Scheduler.SelectedSpec` | Backend/src/jobs/scheduler.js:175-203 | a due monitor is started iff it is not in flight and its breaker is not cooling down, and at most once |
| `Scheduler.DueSpec` | Backend/src/jobs/scheduler.js:224-238 | a monitor that is not paused is due when its time has come, and whenever its last check lies in the future |
| `Scheduler.ErrorSpec` | Backend/src/jobs/scheduler.js:205-211 | an error is counted exactly for a failed write and for an incident call that was made and failed |
| `Scheduler.BatchPointwise` | Backend/src/jobs/scheduler.js:195-205 | a batch leaves every monitor as its own check alone would, so the completion order does not matter |
| `Scheduler.MonitorScheduler.RunCheck` | Backend/src/jobs/scheduler.js:252-400 | every write of one check under every fault: targeted update of the stored document, log row, incident effect, statistics |
| `Scheduler.MonitorScheduler.ApplyTransition` | Backend/src/jobs/scheduler.js:356-389 | the incident collection and announcements change as the transition says, and the counters by what really happened |
| `Scheduler.MonitorScheduler.SelectTasks` | Backend/src/jobs/scheduler.js:174-203 | overlap skips, breaker skips and started tasks add up to the batch; nothing in flight is started again |
| `Scheduler.MonitorScheduler.RunTasks` | Backend/src/jobs/scheduler.js:195-211 | in whatever order the pool gets through the tasks, all take effect and the in-flight set drains, failing tasks included |
| `Scheduler.MonitorScheduler.RunTask` | Backend/src/jobs/scheduler.js:196-211 | one task has its check's effect, leaves the in-flight set whatever happens, and counts its failures |
| `Scheduler.MonitorScheduler.Tick` | Backend/src/jobs/scheduler.js:151-222 | a follower or a re-entrant tick changes nothing but the lease; a leader performs exactly the selected checks, in any order; the overlap guard never fires between ticks |
| `Batches.InterleavedRecords` | Backend/src/jobs/scheduler.js:324-330 | under every interleaving of a batch's writes and owner activity, with any faults, the scheduler's fields of each monitor are those of its own check alone |
| `Batches.InterleavedMonitors` | Backend/src/jobs/scheduler.js:195-205 | a whole batch leaves the same monitors under every interleaving as one check after another |
| `Batches.InterleavedAgreement` | Backend/src/jobs/scheduler.js:324-389 | a fault-free batch keeps status, incidents and announcements in agreement under every interleaving; on the way a monitor disagrees only while its own incident call is outstanding |
| `Batches.InterleavedBreakers` | Backend/src/jobs/scheduler.js:308-330 | every breaker keeps its invariant at every point of every interleaving, faults included |
| `Ticks.BatchIsRun` | Backend/src/jobs/scheduler.js:195-205 | the effect of a tick's batch is a run of its checks |
| `Ticks.BatchKeepsInvariants` | Backend/src/jobs/scheduler.js:195-205 | any batch keeps the breaker invariant, a fault-free one the agreement |
| `Ticks.AgreementOverTicks` | Backend/src/jobs/scheduler.js:151-222 | agreement of status, incidents and announcements after every sequence of fault-free ticks that check one after another, with owner activity in between |
| `Ticks.AgreementOverLiveTicks` | Backend/src/jobs/scheduler.js:151-222 | the same for ticks whose checks interleave with each other and with owner activity during the tick |
| `Ticks.BreakersOverLiveTicks` | Backend/src/jobs/scheduler.js:151-222 | and for the breaker invariant, faults included |
| `Ticks.LiveTickMonitors` | Backend/src/jobs/scheduler.js:195-205 | an interleaved tick without owner activity leaves the monitors of the sequential one |
| `Ticks.BreakersOverTicks` | Backend/src/jobs/scheduler.js:151-222 | the breaker invariant after every sequence of ticks, faults included |
| `Ticks.TickIsRound` | Backend/src/jobs/scheduler.js:174-205 | a tick leaves the monitors as checking its whole due batch would, and performs exactly the checks that round starts |
| `Fairness.NoFutureChecks` | Backend/src/jobs/scheduler.js:227-238 | on a forward clock the backward-jump arm never fires and being due means being scheduled |
| `Fairness.DueBatchExists` | Backend/src/jobs/scheduler.js:232-246 | the due query always has an answer |
| `Fairness.OwnerActivityIsQuiet` | Backend/src/controllers/monitor.controller.js:14-47 | pausing, deleting, re-configuring and later creation put nothing new ahead of a due monitor |
| `Fairness.PassedOverAdvances` | Backend/src/jobs/scheduler.js:232-246 | when a due monitor is passed over, every recorded member of the full batch moves behind it |
| `Fairness.HeldIsCooling` | Backend/src/jobs/scheduler.js:187-193 | without write failures a batch holds no more members than there are due monitors in their cooldown |
| `Fairness.NotStarved` | Backend/src/jobs/scheduler.js:232-246 | if each batch moves at least b of its 500 members, a due monitor with k ahead of it reaches a batch after at most k / b ticks, whichever way ties break, and is checked there if its own breaker allows it |
| `Fairness.HeldBatchStarves` | Backend/src/jobs/scheduler.js:232-246 | while 500 more overdue monitors stay held, a monitor is in no batch of any tick, whatever the database answers |
| `Fairness.OpenBreakersHoldTheBatch` | Backend/src/jobs/scheduler.js:187-193 | with ties, a full batch of open breakers changes nothing and may be selected again while they cool down |
| `Fairness.RateFloor` | Backend/src/jobs/scheduler.js:296-317 | between the end of a recorded check and any later start of the monitor lie at least max(5, interval) seconds, whatever fails in other rounds |
| `Fairness.UnrecordedCheckRepeats` | Backend/src/jobs/scheduler.js:324-330 | after a check whose status write failed the monitor is due and let through at every later reading, and every batch that is not full starts it again |
| `Fairness.WindowBound` | Backend/src/jobs/scheduler.js:44-51 | a window of L seconds contains the starts of at most 1 + L / 5 recorded checks of one monitor |
| `Ticks.NotStarvedOverTicks` | Backend/src/jobs/scheduler.js:151-246 | the same starvation bound for sequences of the scheduler's ticks, with the owners' operations spelled out |
| `Ticks.StarvedOverTicks` | Backend/src/jobs/scheduler.js:151-246 | the same converse: 500 held monitors ahead keep a monitor out of every tick while owners leave them in place |
| `Ticks.RateFloorOverTicks` | Backend/src/jobs/scheduler.js:296-317 | the rate floor after a recorded check of a monitor, whatever fails elsewhere and whatever owners do short of deleting it |
| `Ticks.UnrecordedRepeatsOverTicks` | Backend/src/jobs/scheduler.js:324-330 | an unrecorded check is repeated by the next tick, unless its batch is full or the owner intervenes |
| `Ticks.WindowBoundOverTicks` | Backend/src/jobs/scheduler.js:44-51 | the window bound for the recorded checks that sequences of ticks perform |
| `Pool.CompleteInv` | Backend/src/utils/pool.js:23-34 | one turn of a worker keeps the pool's invariant |
| `Pool.PoolCorrect` | Backend/src/utils/pool.js:19-38 | under every completion order: tasks start once each and in order, at most max(1, min(limit, n)) run, nobody exits while one is unstarted, each slot gets its own outcome, and all are filled at the end |
| `Pool.Makespan` | Backend/src/utils/pool.js:19-38 | width times any worker's finish is at most the total work plus (width - 1) times the longest task, however ties break |
| `Pool.WorkerPool.constructor` | Backend/src/utils/pool.js:20-22 | all workers are launched before any task completes |
| `Pool.WorkerPool.Settle` | Backend/src/utils/pool.js:24-33 | a resumed worker fills its slot in place and takes the next index or exits |
| `Pool.WorkerPool.NextToSettle` | Backend/src/utils/pool.js:29 | the running task that ends first resumes its worker; none only when all have exited |
| `Pool.RunPool` | Backend/src/utils/pool.js:19-38 | terminates with every result in task order and a finish time between work / width and the greedy bound |
| `Probe.SettlesOnce` | Backend/src/services/monitor.service.js:107-142 | for every order of events: one resolution, by the deadline, after at most maxRedirects + 1 requests, with configured headers exactly on the configured origin |
| `Probe.ResolutionIsFinal` | Backend/src/services/monitor.service.js:117-119 | no later event changes or repeats the resolution |
| `Probe.FirstRequest` | Backend/src/services/monitor.service.js:154-200 | a probe begins with one request for the configured address, or with the refusal that names why there is none |
| `Probe.RedirectIsFollowed` | Backend/src/services/monitor.service.js:214-225 | a redirect with budget left leads to exactly one more request, for its target, with headers iff same origin, and nothing is settled; a target that cannot be requested is refused under its own code |
| `Probe.ErrorDecides` | Backend/src/services/monitor.service.js:144-152 | a transport error that finds the probe unsettled decides it under its own code, retryable iff transient |
| `Probe.DeadlineDecides` | Backend/src/services/monitor.service.js:107-115 | a probe unsettled at its deadline ends there as a retryable timeout |
| `Probe.ResultIsGraded` | Backend/src/services/monitor.service.js:34-50 | UP iff a status in 200..399 that was not given up on for its redirects, iff no error code; retryable on the deadline, among statuses exactly on 408, 429 and 500 up, among transport errors exactly on the transient ones; redirects are given up on only with the budget spent |
| `Probe.AnswerDecides` | Backend/src/services/monitor.service.js:214-262 | an answer that is not followed and is read out in time is UP iff its status is in 200..399 and it does not carry a Location with the budget spent, whatever comes later; the result carries its status, its first-byte time and the redirects followed |
| `Probe.PhaseTimes` | Backend/src/services/monitor.service.js:283-300 | hop-local floored differences telescope to the floored time since the hop began |
| `Probe.PhasesDivide` | Backend/src/services/monitor.service.js:286-300 | lookup, connection and secure connection divide the hop's setup time among their own totals |
| `Probe.ConnectWithoutLookup` | Backend/src/services/monitor.service.js:290-293 | without a lookup the connection takes the whole time |
| `Probe.PhasesTelescope` | Backend/src/services/monitor.service.js:280-301 | across any redirect chain dns + tcp + tls <= total, and <= ttfb <= total whenever there is a status code |
| `Probe.LateLookupOvertakesTotal` | Backend/src/services/monitor.service.js:286-289 | a lookup that is delivered after the deadline makes the shared timings exceed the total |
| `Probe.LatePhaseOvertakes` | Backend/src/services/monitor.service.js:280-301 | a phase event that is delivered after settlement pushes the shared setup beyond the total iff the earlier hops' phases plus the time since its hop began exceed the total |
| `Probe.SharedTimingsAgree` | Backend/src/services/monitor.service.js:117-127 | without phase events after settlement the shared timings stay those of the result |
| `Checker.Attempt.Finish` | Backend/src/services/monitor.service.js:117-142 | the first finish settles with the total and the redirect count; later ones do nothing |
| `Checker.Attempt.IssueRequest` | Backend/src/services/monitor.service.js:154-200 | malformed and unsupported targets settle; others are requested with headers iff same origin |
| `Checker.Attempt.OnResponse` | Backend/src/services/monitor.service.js:211-251 | follows to the target, refuses or reads out a response exactly as the event machine does |
| `Checker.Attempt.OnPhase` | Backend/src/services/monitor.service.js:280-300 | the three phase listeners |
| `Checker.Attempt.Receive` | Backend/src/services/monitor.service.js:107-115 | an overdue deadline comes before the event |
| `Checker.ProbeOnce` | Backend/src/services/monitor.service.js:77-309 | the object's resolution is that of the event machine |
| `Checker.BackoffDelay` | Backend/src/services/monitor.service.js:312-321 | the draw's share of min(base * 2^attempt, cap) in whole milliseconds, so always below a positive ceiling |
| `Checker.CheckMonitor` | Backend/src/services/monitor.service.js:335-353 | returns the last attempt's result in the ladder's time; every earlier attempt failed retryably; stops early iff settled; never beyond the worst case, which is below (R + 1) timeouts plus the R ceilings; a silent target uses every attempt in full |
| `Checker.LadderBound` | Backend/src/services/monitor.service.js:335-353 | whatever the target does and the jitter draws, a check takes at most (R + 1) timeouts plus the longest draws, and no more than its attempts account for |
| `Checker.WorstCaseIsReached` | Backend/src/services/monitor.service.js:344-351 | a silent target with unlucky draws takes exactly the worst case |
| `Checker.LadderFitsInterval` | Backend/src/services/monitor.service.js:335-353 | all checks of a target stay within an interval iff the worst case does or the target is never requested |
| `ScopedDao.MergeIsIntersection` | Backend/src/dao/scopedDao.js:97-103 | the merged filter is the intersection for every filter, scope and document, colliding keys or not |
| `ScopedDao.FindIsViewFiltered` | Backend/src/dao/scopedDao.js:105-112 | a query returns exactly the caller's own documents that match |
| `ScopedDao.FindByIdIsView` | Backend/src/dao/scopedDao.js:127-130 | the same answer for a missing document and for somebody else's |
| `ScopedDao.ReadsSeeOnlyTheView` | Backend/src/dao/scopedDao.js:105-130 | stores that look the same to an owner answer all its reads the same |
| `ScopedDao.AggregateSeesOnlyTheView` | Backend/src/dao/scopedDao.js:166-169 | no pipeline observes another tenant's documents |
| `ScopedDao.NoOwnerNoAccess` | Backend/src/dao/scopedDao.js:73-83 | without a well-formed owner nothing is read and nothing is written |
| `ScopedDao.Dao.CreateOne` | Backend/src/dao/scopedDao.js:132-136 | stores exactly the body with the owner stamped over it, iff the collection is directly owned and the id new; no other document changes |
| `ScopedDao.Dao.UpdateOne` | Backend/src/dao/scopedDao.js:138-145 | updates iff the id is in the owner's view, to the old document overlaid with the patch; otherwise, and elsewhere, nothing changes |
| `ScopedDao.Dao.DeleteOne` | Backend/src/dao/scopedDao.js:147-152 | removes the document and returns it iff the id is in the owner's view; otherwise, and elsewhere, nothing changes |
| `ScopedDao.OpKeepsOtherViews` | Backend/src/dao/scopedDao.js:132-152 | one scoped write keeps every view of every other owner |
| `ScopedDao.TenantsDoNotInterfere` | Backend/src/dao/index.js:19-35 | no sequence of one owner's writes changes any direct or monitor-derived view of another |
| `ScopedDao.PatchReachesOther` | Backend/src/dao/scopedDao.js:138-145 | an update reaches another owner's view iff it finds a document and its patch hands it over |
| `ScopedDao.HandOverMovesRecords` | Backend/src/dao/index.js:19-35 | a monitor handed over takes exactly its incidents and logs from the old owner's derived views to the new one's; any other update of a monitor leaves another owner's derived views alone |
| `Uptime.PrefilterTransparent` | Backend/src/services/uptime.service.js:59-65 | prefilter plus facet equals filtering the whole log per window |
| `Uptime.WindowsNested` | Backend/src/services/uptime.service.js:44-91 | totals, ups and downs are exact counts, add up, and are nested; no percentage without data |
| `Uptime.PercentageSpec` | Backend/src/services/uptime.service.js:67-91 | the percentage is the exact quotient to the nearest thousandth, over a window of 1, 7 or 30 days |
| `Uptime.LatencySpec` | Backend/src/services/uptime.service.js:21-36 | the mean latency is over successful checks that recorded one, to the nearest millisecond, and null iff there are none |
| `Uptime.LastCheckSpec` | Backend/src/services/uptime.service.js:34-36 | the last check is the latest row in the window, null iff there is none |
| `Uptime.FullAndZero` | Backend/src/services/uptime.service.js:79 | 100 iff failures are at most one in 200000, 0 iff successes are fewer than that |
| `Uptime.HundredMeansAllUp` | Backend/src/services/uptime.service.js:67-91 | below 200000 checks a window reads 100 iff every check was UP |
| `StatusPages.SlugShape` | Backend/src/models/statusPage.model.js:37-49 | at most 60 of [a-z0-9-], no leading or doubled hyphen, a final hyphen iff the cut fell on one |
| `StatusPages.SlugIsWords` | Backend/src/models/statusPage.model.js:37-49 | a slug is the words of the lower-cased text joined by single hyphens and cut to 60 |
| `StatusPages.TrimSpec` | Backend/src/controllers/statusPage.controller.js:127-130 | trimming takes the white space off both ends and nothing else |
| `StatusPages.SlugifyTwice` | Backend/src/models/statusPage.model.js:37-49 | idempotent iff the slug does not end in a hyphen, and always after a second application |
| `StatusPages.PageCollection.CreatePage` | Backend/src/controllers/statusPage.controller.js:106-151 | succeeds iff the name is not blank, the owner has fewer than 25 pages, the slug is non-empty, not reserved and free at insert time, rival included, the monitors are the owner's own and the texts fit; stores exactly that page; slugs stay unique |
| `StatusPages.PageFromSpec` | Backend/src/controllers/statusPage.controller.js:126-134 | the stored page, field by field: trimmed texts of at most 80 and 280 characters, the slug of the given slug or name, the monitors once each, public unless said otherwise |
| `StatusPages.ResolveSlugSpec` | Backend/src/controllers/statusPage.controller.js:62-85 | an address is given out iff it is non-empty, not reserved and nobody else's, and a refusal says which |
| `StatusPages.ReachableAtOwnAddress` | Backend/src/controllers/statusPage.controller.js:227-237 | a public page answers at its own address iff the slug does not end in a hyphen; otherwise exactly a public page whose slug lacks that hyphen answers there |
| `StatusPages.UniqueKeepsOrder` | Backend/src/controllers/statusPage.controller.js:40-42 | de-duplication lists no id twice and keeps first-appearance order |
| `StatusPages.ResolveOwnedMonitors` | Backend/src/controllers/statusPage.controller.js:27-60 | the exact answer for every list: accepted iff short, well formed and all the caller's own |

## Left out

- `start`, the shutdown wait and timer arming in the scheduler: ticks and releases are protocol steps instead.
- RunTasks: runs the tasks one after another, in any order; that they interleave between their writes is `Batches.dfy`, and that incident calls interleave with any other caller's is `Incidents.dfy`.
- BatchPointwise: is about monitor documents only; incident ids depend on the order in which concurrent openings reach the collection.
- The database's own sorting: the due query may answer with any list that satisfies `DueBatch`.
- Tick: its batch is loaded and checked without an owner's edit in between; edits, creations and deletions during a batch are in `Batches.dfy`.
- ReleaseDuringRenewalBreaksExclusion: leaves open a release during an acquire that only another instance's live lease keeps from being granted.
- LateLookupOvertakesTotal: takes phase events after settlement as given; a platform that reports none on a destroyed socket never delivers them, and the same holds for `LatePhaseOvertakes`.
- FittingTicksExclude: sufficient, not necessary, and the cluster has no clock for its pool, so that a tick lasts no longer than its overhead and its pool is a hypothesis.
- SettlesOnce: the timer is taken to fire on time; a process that is busy at the deadline settles later.
- Documents without `nextCheckAt`, `status` or counters: schema defaults are taken as applied.
- Unrecorded monitor fields (latency, status code, lag and tick statistics) and the pushes to sockets.
- Sockets, DNS, TLS and URL parsing: a probe is a sequence of timed events; a redirect target arrives resolved, so that a Location that cannot be resolved, which raises an exception in the response callback, does not occur, and the body-size cap only shows as the end of the body.
- BackoffDelay: real arithmetic in place of floating point.
- FullAndZero: exact rational arithmetic in place of floating point.
- CreateOne: a derived collection rejects every create, because its scope is not a storable value.
- Sorting, limiting, selecting and populating in queries, and id casting.
- SlugShape: ASCII input; Unicode normalisation and combining marks are not modelled.
- Updating, listing and rendering status pages beyond creation, address and monitor resolution.
- Notification delivery, AI summaries, authentication, encryption, metrics, HTTP routes and the frontend: plumbing around the engine.
