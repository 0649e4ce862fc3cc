/**
 * The bounded worker pool: cooperative workers that share a cursor over the tasks.
 *
 * A worker that is handed the event loop stores its result, takes the next index if there is
 * one, and otherwise exits.  `State` is what the workers share, `WorkerPool` the object that
 * holds it in place; `freeAt` records when each worker's latest task ends.
 */
module Pool {
  import opened Common

  datatype Outcome = Ok(value: int) | Err(error: string)

  /** What a task will settle to, and how long it takes. */
  datatype Task = Task(outcome: Outcome, duration: nat)

  datatype Worker = Running(index: nat) | Exited

  datatype State = State(cursor: nat, workers: seq<Worker>, results: seq<Option<Outcome>>, started: seq<nat>,
                         freeAt: seq<nat>)

  function Width(n: nat, limit: int): (w: nat)
    ensures 1 <= w
  {
    Max(1, Min(limit, n))
  }

  /** All workers begin before any task can complete: worker k takes task k, or exits if there is none. */
  function Launch(tasks: seq<Task>, limit: int): State {
    var n, width := |tasks|, Width(|tasks|, limit);
    State(Min(width, n),
          seq(width, k requires 0 <= k => if k < n then Running(k) else Exited),
          seq(n, _ => None),
          seq(Min(width, n), k requires 0 <= k => k),
          seq(width, k requires 0 <= k => if k < n then tasks[k].duration else 0))
  }

  predicate CanComplete(s: State, w: nat) {
    w < |s.workers| && s.workers[w].Running?
  }

  predicate Shaped(tasks: seq<Task>, s: State) {
    |s.results| == |tasks| && |s.freeAt| == |s.workers| && s.cursor <= |tasks|
    && forall w :: 0 <= w < |s.workers| && s.workers[w].Running? ==> s.workers[w].index < |tasks|
  }

  /** Worker w's task settles; the worker goes round its loop once. */
  function Complete(tasks: seq<Task>, s: State, w: nat): (s': State)
    requires Shaped(tasks, s) && CanComplete(s, w)
    ensures Shaped(tasks, s')
  {
    var index := s.workers[w].index;
    var stored := s.(results := s.results[index := Some(tasks[index].outcome)]);
    if s.cursor < |tasks| then
      stored.(cursor := s.cursor + 1, started := s.started + [s.cursor],
              workers := s.workers[w := Running(s.cursor)],
              freeAt := s.freeAt[w := s.freeAt[w] + tasks[s.cursor].duration])
    else
      stored.(workers := s.workers[w := Exited])
  }

  /** The states reachable under some completion order; with `timely`, under orders that follow the clock. */
  ghost predicate Reachable(tasks: seq<Task>, limit: int, order: seq<nat>, s: State, timely: bool)
    decreases |order|
  {
    if order == [] then s == Launch(tasks, limit)
    else
      var n := |order| - 1;
      exists p :: Reachable(tasks, limit, order[..n], p, timely) && Shaped(tasks, p) && CanComplete(p, order[n])
                  && (timely ==> EndsFirst(p, order[n])) && s == Complete(tasks, p, order[n])
  }

  /** No running task ends before worker w's. */
  predicate EndsFirst(s: State, w: nat)
    requires |s.freeAt| == |s.workers| && w < |s.workers|
  {
    forall v :: 0 <= v < |s.workers| && s.workers[v].Running? ==> s.freeAt[w] <= s.freeAt[v]
  }

  predicate IsRunning(s: State, i: nat) {
    exists w :: 0 <= w < |s.workers| && s.workers[w] == Running(i)
  }

  // ---------------------------------------------------------------- correctness under every completion order

  ghost predicate Inv(tasks: seq<Task>, limit: int, s: State) {
    && Shaped(tasks, s) && |s.workers| == Width(|tasks|, limit)
    && |s.started| == s.cursor && (forall k :: 0 <= k < s.cursor ==> s.started[k] == k)
    && (forall v, w :: 0 <= v < w < |s.workers| && s.workers[v].Running? && s.workers[w].Running?
                       ==> s.workers[v].index != s.workers[w].index)
    && (forall w :: 0 <= w < |s.workers| && s.workers[w].Running? ==>
          s.workers[w].index < s.cursor && s.results[s.workers[w].index] == None)
    && (forall i :: 0 <= i < |tasks| ==>
          s.results[i] == (if i < s.cursor && !IsRunning(s, i) then Some(tasks[i].outcome) else None))
    && ((exists w :: 0 <= w < |s.workers| && s.workers[w].Exited?) ==> s.cursor == |tasks|)
  }

  lemma LaunchInv(tasks: seq<Task>, limit: int)
    ensures Inv(tasks, limit, Launch(tasks, limit))
  {
    var s := Launch(tasks, limit);
    forall i | 0 <= i < s.cursor ensures IsRunning(s, i) {
      assert s.workers[i] == Running(i);
    }
  }

  lemma CompleteInv(tasks: seq<Task>, limit: int, s: State, w: nat)
    requires Inv(tasks, limit, s) && CanComplete(s, w)
    ensures Inv(tasks, limit, Complete(tasks, s, w))
  {
    var s' := Complete(tasks, s, w);
    var index := s.workers[w].index;
    assert IsRunning(s, index);
    if s.cursor < |tasks| { assert s'.workers[w] == Running(s.cursor); }
    forall i: nat | i < |tasks|
      ensures IsRunning(s', i) <==> (IsRunning(s, i) && i != index) || (i == s.cursor && s.cursor < |tasks|)
    {
      if IsRunning(s, i) && i != index {
        var v :| 0 <= v < |s.workers| && s.workers[v] == Running(i);
        assert s'.workers[v] == Running(i);
      }
      if IsRunning(s', i) {
        var v :| 0 <= v < |s'.workers| && s'.workers[v] == Running(i);
        assert v != w ==> s.workers[v] == Running(i);
      }
    }
  }

  lemma {:induction false} InvReachable(tasks: seq<Task>, limit: int, order: seq<nat>, s: State, timely: bool)
    requires Reachable(tasks, limit, order, s, timely)
    ensures Inv(tasks, limit, s)
    decreases |order|
  {
    if order == [] {
      LaunchInv(tasks, limit);
    } else {
      var n := |order| - 1;
      var p :| Reachable(tasks, limit, order[..n], p, timely) && Shaped(tasks, p) && CanComplete(p, order[n])
               && (timely ==> EndsFirst(p, order[n])) && s == Complete(tasks, p, order[n]);
      InvReachable(tasks, limit, order[..n], p, timely);
      CompleteInv(tasks, limit, p, order[n]);
    }
  }

  /**
   * Under every completion order: tasks are started once each and in index order, never more
   * than the width run at once, nobody exits while a task is unstarted, a finished task's slot
   * holds its own outcome, and if nothing is running then every slot is filled.
   */
  lemma PoolCorrect(tasks: seq<Task>, limit: int, order: seq<nat>, s: State)
    requires Reachable(tasks, limit, order, s, false)
    ensures s.started == seq(s.cursor, k => k) && s.cursor <= |tasks|
    ensures |s.workers| == Max(1, Min(limit, |tasks|))
    ensures s.cursor < |tasks| ==> forall w :: 0 <= w < |s.workers| ==> s.workers[w].Running?
    ensures |s.results| == |tasks| && forall i :: 0 <= i < |tasks| && s.results[i].Some? ==>
              s.results[i].value == tasks[i].outcome
    ensures (forall w :: 0 <= w < |s.workers| ==> s.workers[w].Exited?)
            ==> forall i :: 0 <= i < |tasks| ==> s.results[i] == Some(tasks[i].outcome)
  {
    InvReachable(tasks, limit, order, s, false);
    if forall w :: 0 <= w < |s.workers| ==> s.workers[w].Exited? { PoolFinished(tasks, limit, s); }
  }

  // ---------------------------------------------------------------- makespan

  function Sum(s: seq<nat>): nat {
    if s == [] then 0 else Sum(s[..|s| - 1]) + s[|s| - 1]
  }

  /** Total and largest duration of the first k tasks. */
  function TotalWork(tasks: seq<Task>, k: nat): nat
    requires k <= |tasks|
  {
    if k == 0 then 0 else TotalWork(tasks, k - 1) + tasks[k - 1].duration
  }

  function Longest(tasks: seq<Task>, k: nat): nat
    requires k <= |tasks|
  {
    if k == 0 then 0 else Max(Longest(tasks, k - 1), tasks[k - 1].duration)
  }

  lemma {:induction false} SumUpdate(s: seq<nat>, i: nat, v: nat)
    requires i < |s|
    ensures Sum(s[i := v]) + s[i] == Sum(s) + v
  {
    var n := |s| - 1;
    if i < n {
      SumUpdate(s[..n], i, v);
      assert s[i := v][..n] == s[..n][i := v];
    } else {
      assert s[i := v][..n] == s[..n];
    }
  }

  lemma {:induction false} SumAtLeast(s: seq<nat>, low: nat)
    requires forall i :: 0 <= i < |s| ==> low <= s[i]
    ensures |s| * low <= Sum(s)
  {
    if s != [] { SumAtLeast(s[..|s| - 1], low); }
  }

  lemma {:induction false} SumOfFirst(tasks: seq<Task>, k: nat)
    requires k <= |tasks|
    ensures Sum(seq(k, i requires 0 <= i < k => tasks[i].duration)) == TotalWork(tasks, k)
  {
    if 0 < k {
      SumOfFirst(tasks, k - 1);
      var s := seq(k, i requires 0 <= i < k => tasks[i].duration);
      assert s[..k - 1] == seq(k - 1, i requires 0 <= i < k - 1 => tasks[i].duration);
    }
  }

  /** Every load is within the greedy bound for this much work and this longest task. */
  predicate Bounded(loads: seq<nat>, total: nat, longest: nat) {
    forall w :: 0 <= w < |loads| ==> |loads| * loads[w] <= total + (|loads| - 1) * longest
  }

  /** No worker has idled so far, and none is busy past the greedy bound for the tasks started. */
  ghost predicate LoadInv(tasks: seq<Task>, s: State) {
    && Shaped(tasks, s)
    && Sum(s.freeAt) == TotalWork(tasks, s.cursor)
    && Bounded(s.freeAt, TotalWork(tasks, s.cursor), Longest(tasks, s.cursor))
  }

  lemma LaunchLoad(tasks: seq<Task>, limit: int)
    ensures LoadInv(tasks, Launch(tasks, limit))
  {
    var s := Launch(tasks, limit);
    if tasks == [] {
      assert s.freeAt == [0];
      assert s.freeAt[..0] == [];
    } else {
      var k := s.cursor;
      SumOfFirst(tasks, k);
      assert s.freeAt == seq(k, i requires 0 <= i < k => tasks[i].duration);
      forall w | 0 <= w < k ensures k * s.freeAt[w] <= TotalWork(tasks, k) + (k - 1) * Longest(tasks, k) {
        OneOfMany(tasks, k, w);
        GreedyStep(k, 0, s.freeAt[w], 0, Longest(tasks, k));
      }
    }
  }

  /** The arithmetic of one greedy assignment: a task placed on a worker no busier than the average. */
  lemma GreedyStep(width: nat, low: nat, d: nat, total: nat, longest: nat)
    requires 1 <= width && width * low <= total && d <= longest
    ensures width * (low + d) <= total + d + (width - 1) * longest
  {
    MulMono(width - 1, d, longest);
  }

  lemma MulMono(k: nat, a: nat, b: nat)
    requires a <= b
    ensures k * a <= k * b
  {
  }

  lemma {:induction false} OneOfMany(tasks: seq<Task>, k: nat, i: nat)
    requires i < k <= |tasks|
    ensures tasks[i].duration <= TotalWork(tasks, k) && tasks[i].duration <= Longest(tasks, k)
  {
    if i < k - 1 { OneOfMany(tasks, k - 1, i); }
  }

  /** A task handed to the worker that frees up first starts no later than the average load. */
  lemma GreedyKeepsBound(loads: seq<nat>, w: nat, d: nat, longest: nat)
    requires w < |loads| && Bounded(loads, Sum(loads), longest) && forall v :: 0 <= v < |loads| ==> loads[w] <= loads[v]
    ensures Bounded(loads[w := loads[w] + d], Sum(loads) + d, Max(longest, d))
  {
    SumAtLeast(loads, loads[w]);
    GreedyStep(|loads|, loads[w], d, Sum(loads), Max(longest, d));
    MulMono(|loads| - 1, longest, Max(longest, d));
  }

  lemma CompleteLoad(tasks: seq<Task>, s: State, w: nat)
    requires LoadInv(tasks, s) && CanComplete(s, w) && EndsFirst(s, w)
    requires s.cursor < |tasks| ==> forall v :: 0 <= v < |s.workers| ==> s.workers[v].Running?
    ensures LoadInv(tasks, Complete(tasks, s, w))
  {
    if s.cursor < |tasks| {
      var d := tasks[s.cursor].duration;
      SumUpdate(s.freeAt, w, s.freeAt[w] + d);
      GreedyKeepsBound(s.freeAt, w, d, Longest(tasks, s.cursor));
    }
  }

  lemma {:induction false} LoadReachable(tasks: seq<Task>, limit: int, order: seq<nat>, s: State)
    requires Reachable(tasks, limit, order, s, true)
    ensures LoadInv(tasks, s)
    decreases |order|
  {
    if order == [] {
      LaunchLoad(tasks, limit);
    } else {
      var n := |order| - 1;
      var p :| Reachable(tasks, limit, order[..n], p, true) && Shaped(tasks, p) && CanComplete(p, order[n])
               && EndsFirst(p, order[n]) && s == Complete(tasks, p, order[n]);
      LoadReachable(tasks, limit, order[..n], p);
      assert p.cursor < |tasks| ==> forall v :: 0 <= v < |p.workers| ==> p.workers[v].Running? by {
        InvReachable(tasks, limit, order[..n], p, true);
      }
      CompleteLoad(tasks, p, order[n]);
    }
  }

  /**
   * Makespan of the pool, for any durations and however ties are broken: when it is done, the
   * width times any worker's finish time is at most all the work plus (width - 1) times the
   * longest task.
   */
  lemma Makespan(tasks: seq<Task>, limit: int, order: seq<nat>, s: State, w: nat)
    requires Reachable(tasks, limit, order, s, true) && w < |s.workers|
    requires forall v :: 0 <= v < |s.workers| ==> s.workers[v].Exited?
    ensures var width := Max(1, Min(limit, |tasks|));
            w < |s.freeAt| && width * s.freeAt[w] <= TotalWork(tasks, |tasks|) + (width - 1) * Longest(tasks, |tasks|)
  {
    InvReachable(tasks, limit, order, s, true);
    LoadReachable(tasks, limit, order, s);
    assert s.workers[w].Exited?;
  }

  // ---------------------------------------------------------------- the pool object

  function RunningCount(workers: seq<Worker>): nat {
    if workers == [] then 0
    else RunningCount(workers[..|workers| - 1]) + if workers[|workers| - 1].Running? then 1 else 0
  }

  lemma {:induction false} ExitLowersCount(workers: seq<Worker>, w: nat)
    requires w < |workers| && workers[w].Running?
    ensures RunningCount(workers[w := Exited]) < RunningCount(workers)
  {
    var n := |workers| - 1;
    if w < n {
      ExitLowersCount(workers[..n], w);
      assert workers[w := Exited][..n] == workers[..n][w := Exited];
    } else {
      assert workers[w := Exited][..n] == workers[..n];
    }
  }

  class WorkerPool {
    const tasks: seq<Task>
    const limit: int
    const results: array<Option<Outcome>>
    var cursor: nat
    var workers: seq<Worker>
    var started: seq<nat>
    var freeAt: seq<nat>

    ghost function View(): State
      reads this, results
    {
      State(cursor, workers, results[..], started, freeAt)
    }

    /** Starts the workers one after another; each takes the next index or exits at once. */
    constructor (tasks: seq<Task>, limit: int)
      ensures this.tasks == tasks && this.limit == limit && fresh(results)
      ensures View() == Launch(tasks, limit)
    {
      this.tasks, this.limit := tasks, limit;
      results := new Option<Outcome>[|tasks|](_ => None);
      cursor, workers, started, freeAt := 0, [], [], [];
      new;
      var width := Width(|tasks|, limit);
      for k := 0 to width
        invariant cursor == Min(k, |tasks|) && started == seq(cursor, i requires 0 <= i => i)
        invariant workers == seq(k, i requires 0 <= i => if i < |tasks| then Running(i) else Exited)
        invariant freeAt == seq(k, i requires 0 <= i => if i < |tasks| then tasks[i].duration else 0)
        invariant forall i :: 0 <= i < |tasks| ==> results[i] == None
      {
        if cursor < |tasks| {
          workers, started := workers + [Running(cursor)], started + [cursor];
          freeAt := freeAt + [tasks[cursor].duration];
          cursor := cursor + 1;
        } else {
          workers, freeAt := workers + [Exited], freeAt + [0];
        }
      }
    }

    /** Worker w resumes: it fills the slot of the task it awaited and goes round its loop. */
    method Settle(w: nat)
      requires Shaped(tasks, View()) && CanComplete(View(), w)
      modifies this`cursor, this`workers, this`started, this`freeAt, results
      ensures View() == Complete(tasks, old(View()), w)
    {
      var index := workers[w].index;
      results[index] := Some(tasks[index].outcome);
      if cursor < |tasks| {
        workers := workers[w := Running(cursor)];
        freeAt := freeAt[w := freeAt[w] + tasks[cursor].duration];
        started := started + [cursor];
        cursor := cursor + 1;
      } else {
        workers := workers[w := Exited];
      }
    }

    /** The next worker the event loop resumes: the running one whose task ends first. */
    method NextToSettle() returns (next: Option<nat>)
      requires Shaped(tasks, View())
      ensures next.None? ==> forall v :: 0 <= v < |workers| ==> workers[v].Exited?
      ensures next.Some? ==> CanComplete(View(), next.value) && EndsFirst(View(), next.value)
    {
      next := None;
      for v := 0 to |workers|
        invariant next.None? ==> forall u :: 0 <= u < v ==> workers[u].Exited?
        invariant next.Some? ==> next.value < v && workers[next.value].Running?
                                 && forall u :: 0 <= u < v && workers[u].Running? ==> freeAt[next.value] <= freeAt[u]
      {
        if workers[v].Running? && (next.None? || freeAt[v] < freeAt[next.value]) {
          next := Some(v);
        }
      }
    }
  }

  lemma ReachableSnoc(tasks: seq<Task>, limit: int, order: seq<nat>, p: State, w: nat)
    requires Reachable(tasks, limit, order, p, true) && Shaped(tasks, p) && CanComplete(p, w) && EndsFirst(p, w)
    ensures Reachable(tasks, limit, order + [w], Complete(tasks, p, w), true)
    ensures Inv(tasks, limit, Complete(tasks, p, w))
  {
    assert (order + [w])[..|order|] == order;
    InvReachable(tasks, limit, order, p, true);
    CompleteInv(tasks, limit, p, w);
  }

  /** Runs the event loop until every worker has exited. */
  method Drain(tasks: seq<Task>, limit: int) returns (pool: WorkerPool, ghost order: seq<nat>)
    ensures fresh(pool) && fresh(pool.results) && pool.tasks == tasks
    ensures Reachable(tasks, limit, order, pool.View(), true)
    ensures forall v :: 0 <= v < |pool.workers| ==> pool.workers[v].Exited?
  {
    pool := new WorkerPool(tasks, limit);
    order := [];
    LaunchInv(tasks, limit);
    var next := pool.NextToSettle();
    while next.Some?
      invariant fresh(pool) && fresh(pool.results) && pool.tasks == tasks
      invariant Reachable(tasks, limit, order, pool.View(), true) && Inv(tasks, limit, pool.View())
      invariant next.Some? ==> CanComplete(pool.View(), next.value) && EndsFirst(pool.View(), next.value)
      invariant next.None? ==> forall v :: 0 <= v < |pool.workers| ==> pool.workers[v].Exited?
      decreases |tasks| - pool.cursor, RunningCount(pool.workers)
    {
      if pool.cursor == |tasks| { ExitLowersCount(pool.workers, next.value); }
      ReachableSnoc(tasks, limit, order, pool.View(), next.value);
      order := order + [next.value];
      pool.Settle(next.value);
      next := pool.NextToSettle();
    }
  }

  method Latest(times: seq<nat>) returns (latest: nat)
    ensures forall v :: 0 <= v < |times| ==> times[v] <= latest
    ensures times != [] ==> latest in times
  {
    latest := 0;
    for w := 0 to |times|
      invariant forall v :: 0 <= v < w ==> times[v] <= latest
      invariant if w == 0 then latest == 0 else latest in times[..w]
    {
      assert times[..w + 1] == times[..w] + [times[w]];
      latest := Max(latest, times[w]);
    }
    assert times[..|times|] == times;
  }

  /** The whole pool: results in task order, within the greedy bound, for every limit and every task list. */
  method RunPool(tasks: seq<Task>, limit: int) returns (results: seq<Option<Outcome>>, finish: nat)
    ensures |results| == |tasks| && forall i :: 0 <= i < |tasks| ==> results[i] == Some(tasks[i].outcome)
    ensures var width := Max(1, Min(limit, |tasks|));
            && width * finish <= TotalWork(tasks, |tasks|) + (width - 1) * Longest(tasks, |tasks|)
            && TotalWork(tasks, |tasks|) <= width * finish
  {
    var pool, order := Drain(tasks, limit);
    ghost var done := pool.View();
    InvReachable(tasks, limit, order, done, true);
    LoadReachable(tasks, limit, order, done);
    PoolFinished(tasks, limit, done);
    results := pool.results[..];
    finish := Latest(pool.freeAt);
    SumAtMost(pool.freeAt, finish);
  }

  lemma PoolFinished(tasks: seq<Task>, limit: int, s: State)
    requires Inv(tasks, limit, s) && forall v :: 0 <= v < |s.workers| ==> s.workers[v].Exited?
    ensures s.cursor == |tasks| && forall i :: 0 <= i < |tasks| ==> s.results[i] == Some(tasks[i].outcome)
  {
    assert s.workers[0].Exited?;
    assert forall i :: !IsRunning(s, i);
  }

  lemma {:induction false} SumAtMost(s: seq<nat>, high: nat)
    requires forall i :: 0 <= i < |s| ==> s[i] <= high
    ensures Sum(s) <= |s| * high
  {
    if s != [] { SumAtMost(s[..|s| - 1], high); }
  }
}
