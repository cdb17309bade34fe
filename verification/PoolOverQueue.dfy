/**
 The thread pool on top of the blocking queue's monitor: workers, the thread that stops the
 pool, and threads that add tasks wait, are woken and go on as the queue makes them.
 */
module PoolOverQueue {
  import opened Q = BlockingQueue
  import opened P = ThreadPool
  import opened IndexArithmetic

  /** Threads below the number of workers are the workers, the next one stops the pool, the others add. */
  datatype Whole = Whole(pool: Pool, mon: Monitor<Job>)
  {
    ghost function Stopper(): nat {
      |pool.workers|
    }
  }

  ghost predicate Start(s: Whole) {
    && P.Init(s.pool) && Q.Init(s.mon) && s.mon.capacity == |s.pool.workers|
    && forall t: nat :: t <= s.Stopper() ==> t in s.mon.threads
  }

  /** The calls a thread makes: an idle worker pops, Stop pushes sentinels, the others push tasks. */
  ghost predicate MayCall(s: Whole, t: nat, call: Call<Job>) {
    if t < s.Stopper() then s.pool.workers[t] == Idle && call == PopCall
    else if t == s.Stopper() then s.pool.stopping && s.pool.nulls < |s.pool.workers| && call == PushCall(Null)
    else call.PushCall? && call.x.Run?
  }

  /** What a call does to the pool when the queue lets it through; otherwise nothing. */
  ghost predicate Effect(s: Whole, s': Whole, t: nat, call: Call<Job>) {
    match call
    case PushCall(x) =>
      if |s.mon.queue| == s.mon.capacity then s'.pool == s.pool
      else if x == Null then P.PushNull(s.pool, s'.pool)
      else P.Add(s.pool, s'.pool, x.task)
    case PopCall =>
      if s.mon.queue == [] then s'.pool == s.pool else P.Pop(s.pool, s'.pool, t)
  }

  /** A thread calls, or goes on after it was woken. */
  ghost predicate Act(s: Whole, s': Whole, t: nat, call: Call<Job>) {
    && t in s.mon.threads && MayCall(s, t, call)
    && (s.mon.threads[t] == Outside || s.mon.threads[t] == Woken(call))
    && Q.Attempt(s.mon, s'.mon, t, call) && Effect(s, s', t, call)
  }

  /** A waiter wakes for no reason. */
  ghost predicate Spurious(s: Whole, s': Whole, t: nat) {
    && t in s.mon.threads && s.mon.threads[t].Waiting? && s'.pool == s.pool
    && s'.mon == s.mon.(threads := s.mon.threads[t := Woken(s.mon.threads[t].call)])
  }

  /** What happens outside the queue. */
  ghost predicate Own(s: Whole, s': Whole) {
    && s'.mon == s.mon
    && (P.Stop(s.pool, s'.pool) || P.Join(s.pool, s'.pool) || exists w :: P.Finish(s.pool, s'.pool, w))
  }

  ghost predicate Step(s: Whole, s': Whole) {
    (exists t, call :: Act(s, s', t, call)) || (exists t :: Spurious(s, s', t)) || Own(s, s')
  }

  /** The two machines agree on the queue, and a thread in the queue is there for a call it makes. */
  ghost predicate Linked(s: Whole) {
    && s.mon.capacity == |s.pool.workers| && s.mon.queue == s.pool.queue
    && (forall t: nat :: t <= s.Stopper() ==> t in s.mon.threads)
    && (forall t {:trigger s.mon.threads[t]} :: t in s.mon.threads && s.mon.threads[t] != Outside ==>
          MayCall(s, t, s.mon.threads[t].call))
  }

  ghost predicate Inv(s: Whole) {
    P.Inv(s.pool) && Q.Inv(s.mon) && Linked(s)
  }

  lemma StartInv(s: Whole)
    requires Start(s)
    ensures Inv(s)
  {
    P.InitInv(s.pool);
    Q.InitInv(s.mon);
  }

  /** What a thread may call is nobody else's business. */
  lemma OthersMayStill(s: Whole, s': Whole, t: nat, call: Call<Job>, u: nat, other: Call<Job>)
    requires MayCall(s, t, call) && Effect(s, s', t, call) && u != t && MayCall(s, u, other)
    ensures |s'.pool.workers| == |s.pool.workers| && MayCall(s', u, other)
  {}

  /** Whether the queue makes a call wait. */
  ghost predicate Blocks(mon: Monitor<Job>, call: Call<Job>) {
    if call.PushCall? then |mon.queue| == mon.capacity else mon.queue == []
  }

  /** What an attempt does to the threads: its own waits or leaves, at most one other is woken. */
  lemma AttemptThreads(mon: Monitor<Job>, mon': Monitor<Job>, t: nat, call: Call<Job>, u: nat)
    requires t in mon.threads && Q.Attempt(mon, mon', t, call)
    ensures mon'.threads.Keys == mon.threads.Keys && mon'.capacity == mon.capacity
    ensures mon'.threads[t] == if Blocks(mon, call) then Waiting(call) else Outside
    ensures u != t && u in mon.threads && mon'.threads[u] != Outside ==>
      mon.threads[u] != Outside && mon'.threads[u].call == mon.threads[u].call
  {}

  lemma EffectIsStep(s: Whole, s': Whole, t: nat, call: Call<Job>)
    requires Linked(s) && MayCall(s, t, call) && Q.Attempt(s.mon, s'.mon, t, call) && Effect(s, s', t, call)
    ensures if Blocks(s.mon, call) then s'.pool == s.pool && s'.mon.queue == s.mon.queue else P.Next(s.pool, s'.pool)
    ensures s'.mon.queue == s'.pool.queue
  {
    if !Blocks(s.mon, call) {
      match call
      case PushCall(x) =>
        if x.Run? {
          assert P.Add(s.pool, s'.pool, x.task);
        } else {
          assert P.PushNull(s.pool, s'.pool);
        }
      case PopCall =>
        assert P.Pop(s.pool, s'.pool, t);
    }
  }

  lemma ActLinks(s: Whole, s': Whole, t: nat, call: Call<Job>)
    requires Linked(s) && Act(s, s', t, call)
    ensures Linked(s')
    ensures s'.pool == s.pool || P.Next(s.pool, s'.pool)
  {
    hide Q.Attempt, P.Next;
    EffectIsStep(s, s', t, call);
    AttemptThreads(s.mon, s'.mon, t, call, t);
    hide Effect;
    SameWorkers(s, s', t, call);
    forall u | u in s'.mon.threads && s'.mon.threads[u] != Outside
      ensures MayCall(s', u, s'.mon.threads[u].call)
    {
      AttemptThreads(s.mon, s'.mon, t, call, u);
      if u != t {
        OthersMayStill(s, s', t, call, u, s.mon.threads[u].call);
      }
    }
  }

  lemma SameWorkers(s: Whole, s': Whole, t: nat, call: Call<Job>)
    requires Effect(s, s', t, call)
    ensures |s'.pool.workers| == |s.pool.workers|
  {}

  lemma ActKeeps(s: Whole, s': Whole, t: nat, call: Call<Job>)
    requires Inv(s) && Act(s, s', t, call)
    ensures Inv(s')
  {
    hide P.Inv, Q.Inv, Linked, P.Next;
    ActLinks(s, s', t, call);
    if s'.pool != s.pool {
      P.NextInv(s.pool, s'.pool);
    }
    hide Effect, MayCall;
    Q.AttemptKeeps(s.mon, s'.mon, t, call);
  }

  lemma OwnLinks(s: Whole, s': Whole)
    requires Linked(s) && Own(s, s')
    ensures Linked(s') && P.Next(s.pool, s'.pool)
  {
    hide MayCall;
    assert |s'.pool.workers| == |s.pool.workers| && s'.pool.queue == s.pool.queue;
    forall t | t in s.mon.threads && s.mon.threads[t] != Outside
      ensures MayCall(s', t, s.mon.threads[t].call)
    {
      OwnMayStill(s, s', t, s.mon.threads[t].call);
    }
  }

  lemma OwnMayStill(s: Whole, s': Whole, t: nat, call: Call<Job>)
    requires Own(s, s') && MayCall(s, t, call)
    ensures MayCall(s', t, call)
  {}

  lemma OwnKeeps(s: Whole, s': Whole)
    requires Inv(s) && Own(s, s')
    ensures Inv(s')
  {
    hide P.Inv, Q.Inv, Linked, P.Next;
    OwnLinks(s, s');
    P.NextInv(s.pool, s'.pool);
  }

  lemma SpuriousKeeps(s: Whole, s': Whole, t: nat)
    requires Inv(s) && Spurious(s, s', t)
    ensures Inv(s')
  {
    hide P.Inv;
    assert Q.Next(s.mon, s'.mon);
    Q.NextInv(s.mon, s'.mon);
  }

  lemma StepInv(s: Whole, s': Whole)
    requires Inv(s) && Step(s, s')
    ensures Inv(s')
  {
    hide Inv, Act, Own, Spurious;
    if t: nat, call :| Act(s, s', t, call) {
      ActKeeps(s, s', t, call);
    } else if t: nat :| Spurious(s, s', t) {
      SpuriousKeeps(s, s', t);
    } else {
      OwnKeeps(s, s');
    }
  }

  // Runs.

  ghost predicate IsRun(run: seq<Whole>) {
    run != [] && Start(run[0]) && forall k :: 0 <= k < |run| - 1 ==> Step(run[k], run[k + 1])
  }

  lemma {:induction false} RunInv(run: seq<Whole>, k: nat)
    requires IsRun(run) && k < |run|
    ensures Inv(run[k])
  {
    if k == 0 {
      StartInv(run[0]);
    } else {
      RunInv(run, k - 1);
      StepInv(run[k - 1], run[k]);
    }
  }

  ghost function Pools(run: seq<Whole>): (r: seq<Pool>)
    ensures |r| == |run| && forall k :: 0 <= k < |run| ==> r[k] == run[k].pool
  {
    seq(|run|, k requires 0 <= k < |run| => run[k].pool)
  }

  lemma PoolStep(s: Whole, s': Whole)
    requires Inv(s) && Step(s, s')
    ensures P.Next(s.pool, s'.pool)
  {
    hide P.Inv, Q.Inv, Linked, Act, Own;
    if t: nat, call :| Act(s, s', t, call) {
      ActLinks(s, s', t, call);
    } else if t: nat :| Spurious(s, s', t) {
    } else {
      OwnLinks(s, s');
    }
  }

  /** With all the waiting and waking in between, the pool still only does what its own machine does. */
  lemma PoolRefined(run: seq<Whole>)
    requires IsRun(run)
    ensures P.IsRun(Pools(run))
  {
    hide Step, P.Next;
    forall k | 0 <= k < |run| - 1
      ensures P.Next(Pools(run)[k], Pools(run)[k + 1])
    {
      RunInv(run, k);
      PoolStep(run[k], run[k + 1]);
    }
  }

  /** So a shutdown after the last addition runs every task once, whatever waits in between. */
  lemma ShutdownCompletes(run: seq<Whole>, k: nat)
    requires IsRun(run) && P.AddsComeFirst(Pools(run)) && k < |run| && run[k].pool.joined == |run[k].pool.workers|
    ensures var s := run[k];
      && s.mon.queue == [] && multiset(s.pool.done) == P.TasksIn(s.pool.pushed)
      && forall w :: 0 <= w < |s.pool.workers| ==> P.NullsOf(s.pool.taken, w) == 1
  {
    PoolRefined(run);
    P.StopCompletes(Pools(run), k);
    RunInv(run, k);
  }

  // No wake-up is missing.

  /** A call the queue lets through can be made at once. */
  lemma {:induction false} ActThrough(s: Whole, t: nat, call: Call<Job>) returns (s': Whole)
    requires Inv(s) && t in s.mon.threads && MayCall(s, t, call) && !Blocks(s.mon, call)
    requires s.mon.threads[t] == Outside || s.mon.threads[t] == Woken(call)
    ensures Act(s, s', t, call) && s'.pool != s.pool
  {
    hide P.Inv, Q.Inv;
    var threads := s.mon.threads[t := Outside];
    var waiting := if call.PushCall? then PopWaiting(threads) else PushWaiting(threads);
    if u: nat :| u in waiting {
      threads := threads[u := Woken(threads[u].call)];
    }
    match call
    case PushCall(x) =>
      var nulls := if x == Null then s.pool.nulls + 1 else s.pool.nulls;
      s' := Whole(s.pool.(queue := s.pool.queue + [x], pushed := s.pool.pushed + [x], nulls := nulls),
                  s.mon.(queue := s.mon.queue + [x], pushed := s.mon.pushed + [x], threads := threads));
      assert |s'.pool.pushed| == |s.pool.pushed| + 1;
    case PopCall =>
      var job := s.pool.queue[0];
      s' := Whole(s.pool.(queue := s.pool.queue[1..], taken := s.pool.taken + [(t, job)],
                          workers := s.pool.workers[t := if job == Null then Exited else Running(job.task)]),
                  s.mon.(queue := s.mon.queue[1..], popped := s.mon.popped + [job], threads := threads));
      assert |s'.pool.taken| == |s.pool.taken| + 1;
  }

  /**
   A thread that may make a call the queue would let through can make it, or waits for it
   and then another thread has been woken that can make such a call.
   */
  lemma {:induction false} SomebodyActs(s: Whole, t: nat, call: Call<Job>) returns (s': Whole, u: nat, other: Call<Job>)
    requires Inv(s) && t in s.mon.threads && MayCall(s, t, call) && !Blocks(s.mon, call)
    requires s.mon.threads[t] != Outside ==> s.mon.threads[t].call == call
    ensures Act(s, s', u, other) && s'.pool != s.pool
  {
    if s.mon.threads[t].Waiting? {
      var woken := if call.PushCall? then PushWoken(s.mon.threads) else PopWoken(s.mon.threads);
      Q.GroupOf(s.mon.threads, t);
      assert woken != {};
      u :| u in woken;
      other := s.mon.threads[u].call;
      assert MayCall(s, u, other);
    } else {
      u, other := t, call;
    }
    s' := ActThrough(s, u, other);
  }

  /**
   Until the last worker is joined, a stopping pool is never stuck in the queue: some thread
   can take a step that moves the pool on, without anyone waking for no reason.
   */
  lemma {:induction false} NobodyMissesAWakeUp(run: seq<Whole>, k: nat) returns (s': Whole)
    requires IsRun(run) && k < |run| && run[k].pool.stopping && run[k].pool.joined < |run[k].pool.workers|
    ensures s'.pool != run[k].pool && (Own(run[k], s') || exists t, call :: Act(run[k], s', t, call))
  {
    RunInv(run, k);
    var s := run[k];
    P.NullsConcat(P.Jobs(s.pool.taken), s.pool.queue);
    P.ExitedAtMost(s.pool.workers);
    if w: nat :| w < |s.pool.workers| && s.pool.workers[w].Running? {
      s' := s.(pool := s.pool.(workers := s.pool.workers[w := Idle], done := s.pool.done + [s.pool.workers[w].task]));
      assert P.Finish(s.pool, s'.pool, w);
      assert |s'.pool.done| == |s.pool.done| + 1;
    } else if P.ExitedCount(s.pool.workers) < |s.pool.workers| {
      var t := P.FindIdle(s.pool.workers);
      var call: Call<Job> := PopCall;
      if s.pool.queue == [] {
        t, call := s.Stopper(), PushCall(Null);
      }
      var u, other;
      s', u, other := SomebodyActs(s, t, call);
    } else {
      s' := s.(pool := s.pool.(joined := s.pool.joined + 1));
      assert P.Join(s.pool, s'.pool);
    }
  }

  // How long a shutdown takes.

  ghost function Awake(threads: map<nat, Thread<Job>>): (r: set<nat>)
    ensures |r| <= |threads|
  {
    var r := set t | t in threads && !threads[t].Waiting?;
    SubsetSize(r, threads.Keys);
    r
  }

  lemma {:induction false} SubsetSize(a: set<nat>, b: set<nat>)
    requires a <= b
    ensures |a| <= |b|
  {
    if a != {} {
      var x :| x in a;
      SubsetSize(a - {x}, b - {x});
    }
  }

  /** The steps the pool has left come first, then the threads that can still go to wait. */
  ghost function Measure(s: Whole): int {
    P.Left(s.pool) * (|s.mon.threads| + 1) + |Awake(s.mon.threads)|
  }

  /** Every step but an addition that gets through and a wake-up for no reason. */
  ghost predicate Progress(s: Whole, s': Whole) {
    Own(s, s') || exists t, call :: Act(s, s', t, call) && (Blocks(s.mon, call) || !AddsTask(call))
  }

  ghost predicate AddsTask(call: Call<Job>) {
    call.PushCall? && call.x.Run?
  }

  lemma MeasureOf(left: int, left': int, awake: nat, awake': nat, n: nat)
    requires awake <= n && awake' <= n
    ensures left' < left ==> left' * (n + 1) + awake' < left * (n + 1) + awake
    ensures left' <= left + 2 ==> left' * (n + 1) + awake' <= left * (n + 1) + awake + 3 * (n + 1)
    ensures left' >= 0 ==> left' * (n + 1) >= 0
  {
    if left' < left {
      MulMonotone(left' + 1, left, n + 1);
      MulStep(left', n + 1);
    }
    if left' <= left + 2 {
      MulMonotone(left', left + 2, n + 1);
      MulStep(left, n + 1);
      MulStep(left + 1, n + 1);
    }
    if left' >= 0 {
      MulMonotone(0, left', n + 1);
    }
  }

  lemma GoesToWait(mon: Monitor<Job>, mon': Monitor<Job>, t: nat, call: Call<Job>)
    requires t in mon.threads && !mon.threads[t].Waiting? && Q.Attempt(mon, mon', t, call) && Blocks(mon, call)
    ensures |mon'.threads| == |mon.threads| && |Awake(mon'.threads)| == |Awake(mon.threads)| - 1
  {
    assert mon'.threads.Keys == mon.threads.Keys;
    assert Awake(mon'.threads) == Awake(mon.threads) - {t};
  }

  lemma SameThreads(s: Whole, s': Whole)
    requires Step(s, s')
    ensures |s'.mon.threads| == |s.mon.threads|
  {
    hide Effect, MayCall, Q.Attempt;
    if t: nat, call :| Act(s, s', t, call) {
      AttemptThreads(s.mon, s'.mon, t, call, t);
    } else if t: nat :| Spurious(s, s', t) {
    }
    assert s'.mon.threads.Keys == s.mon.threads.Keys;
  }

  /** What a call does to a stopping pool when it gets through. */
  lemma ThroughIs(s: Whole, s': Whole, t: nat, call: Call<Job>)
    requires Linked(s) && Act(s, s', t, call) && !Blocks(s.mon, call)
    ensures if AddsTask(call) then P.Add(s.pool, s'.pool, call.x.task) else P.Inner(s.pool, s'.pool)
  {
    hide Q.Attempt;
    match call
    case PushCall(x) =>
    case PopCall =>
      assert P.Pop(s.pool, s'.pool, t);
  }

  lemma ProgressCounts(s: Whole, s': Whole)
    requires Inv(s) && s.pool.stopping && Progress(s, s')
    ensures s'.pool.stopping && |s'.mon.threads| == |s.mon.threads|
    ensures 0 <= Measure(s') < Measure(s)
  {
    hide P.Inv, Q.Inv, P.Left, Effect, MayCall, Q.Attempt, P.Inner;
    assert Step(s, s');
    SameThreads(s, s');
    MeasureOf(P.Left(s.pool), P.Left(s'.pool), |Awake(s.mon.threads)|, |Awake(s'.mon.threads)|, |s.mon.threads|);
    if t: nat, call :| Act(s, s', t, call) && (Blocks(s.mon, call) || !AddsTask(call)) {
      if Blocks(s.mon, call) {
        EffectIsStep(s, s', t, call);
        GoesToWait(s.mon, s'.mon, t, call);
        LeftIsNatural(s.pool);
      } else {
        ThroughIs(s, s', t, call);
        P.EveryStepCounts(s.pool, s'.pool);
      }
    } else {
      OwnIsInner(s, s');
      P.EveryStepCounts(s.pool, s'.pool);
    }
    KeepsStopping(s, s');
  }

  lemma OwnIsInner(s: Whole, s': Whole)
    requires Own(s, s') && s.pool.stopping
    ensures P.Inner(s.pool, s'.pool)
  {}

  lemma LeftIsNatural(p: Pool)
    requires P.Inv(p)
    ensures P.Left(p) >= 0
  {}

  lemma KeepsStopping(s: Whole, s': Whole)
    requires Inv(s) && Step(s, s') && s.pool.stopping
    ensures s'.pool.stopping
  {
    hide Inv, Step;
    PoolStep(s, s');
  }

  /** An addition or a spurious wake-up gives the shutdown no more than this many steps. */
  lemma OtherStepsCost(s: Whole, s': Whole)
    requires Inv(s) && s.pool.stopping && Step(s, s') && !Progress(s, s')
    ensures s'.pool.stopping && |s'.mon.threads| == |s.mon.threads|
    ensures Measure(s') <= Measure(s) + 3 * (|s.mon.threads| + 1)
  {
    hide P.Inv, Q.Inv, P.Left, Effect, MayCall, Q.Attempt, P.Inner, Own;
    SameThreads(s, s');
    MeasureOf(P.Left(s.pool), P.Left(s'.pool), |Awake(s.mon.threads)|, |Awake(s'.mon.threads)|, |s.mon.threads|);
    if t: nat, call :| Act(s, s', t, call) {
      ThroughIs(s, s', t, call);
      AddCosts(s.pool, s'.pool, call.x.task);
    } else {
      assert s'.pool == s.pool;
    }
    KeepsStopping(s, s');
  }

  lemma AddCosts(p: Pool, p': Pool, task: Task)
    requires P.Add(p, p', task)
    ensures P.Left(p') == P.Left(p) + 2
  {}

  /** How many steps of a stretch of a run are no progress. */
  ghost function Others(run: seq<Whole>, j: nat, k: nat): nat
    requires j <= k < |run|
  {
    if j == k then 0 else Others(run, j, k - 1) + (if Progress(run[k - 1], run[k]) then 0 else 1)
  }

  /**
   From the moment the pool is being stopped, a run takes no more steps than its measure
   says, but for the additions and spurious wake-ups in it, each of which costs at most
   three more for every thread. So without them the shutdown comes to an end, and by
   NobodyMissesAWakeUp not before the last worker is joined.
   */
  lemma {:induction false} ShutdownIsBounded(run: seq<Whole>, j: nat, k: nat)
    requires IsRun(run) && j <= k < |run| && run[j].pool.stopping
    ensures run[k].pool.stopping && |run[k].mon.threads| == |run[j].mon.threads| && Measure(run[k]) >= 0
    ensures var n := |run[j].mon.threads| + 1;
      k - j + Measure(run[k]) <= Measure(run[j]) + (3 * n + 1) * Others(run, j, k)
  {
    hide Progress, Step, Measure, Inv;
    if j < k {
      ShutdownIsBounded(run, j, k - 1);
      RunInv(run, k - 1);
      MulStep(Others(run, j, k - 1), 3 * (|run[j].mon.threads| + 1) + 1);
      if Progress(run[k - 1], run[k]) {
        ProgressCounts(run[k - 1], run[k]);
      } else {
        OtherStepsCost(run[k - 1], run[k]);
      }
    }
    RunInv(run, k);
    MeasureIsNatural(run[k]);
  }

  lemma MeasureIsNatural(s: Whole)
    requires Inv(s)
    ensures Measure(s) >= 0
  {
    LeftIsNatural(s.pool);
    MulMonotone(0, P.Left(s.pool), |s.mon.threads| + 1);
  }
}
