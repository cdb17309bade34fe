/**
 The thread pool: workers that take closures from a bounded blocking queue, and a shutdown
 that pushes one NULL for each of them. A completed Push or Pop is one step.
 */
module ThreadPool {

  type Task = nat

  datatype Job = Run(task: Task) | Null

  datatype Worker = Idle | Running(task: Task) | Exited

  /**
   pushed are all jobs that went into the queue, nulls the sentinels among them, which Stop
   pushes, taken the jobs popped so far with the worker that popped each, done the tasks run
   to their end, joined the workers Stop has waited for.
   */
  datatype Pool = Pool(queue: seq<Job>, workers: seq<Worker>, stopping: bool, nulls: nat, joined: nat,
                       pushed: seq<Job>, taken: seq<(nat, Job)>, done: seq<Task>)
  {
    ghost predicate Full() {
      |queue| == |workers|
    }
  }

  ghost predicate Init(s: Pool) {
    && |s.workers| > 0 && (forall w :: 0 <= w < |s.workers| ==> s.workers[w] == Idle)
    && s.queue == [] && !s.stopping && s.nulls == s.joined == 0 && s.pushed == [] && s.taken == [] && s.done == []
  }

  // The steps.

  /** Nothing keeps other threads from adding while the pool is being stopped. */
  ghost predicate Add(s: Pool, s': Pool, task: Task) {
    !s.Full() && s' == s.(queue := s.queue + [Run(task)], pushed := s.pushed + [Run(task)])
  }

  ghost predicate Stop(s: Pool, s': Pool) {
    !s.stopping && s' == s.(stopping := true)
  }

  ghost predicate PushNull(s: Pool, s': Pool) {
    && s.stopping && s.nulls < |s.workers| && !s.Full()
    && s' == s.(queue := s.queue + [Null], pushed := s.pushed + [Null], nulls := s.nulls + 1)
  }

  ghost predicate Pop(s: Pool, s': Pool, w: nat) {
    && w < |s.workers| && s.workers[w] == Idle && s.queue != []
    && var job := s.queue[0];
       s' == s.(queue := s.queue[1..], taken := s.taken + [(w, job)],
                workers := s.workers[w := if job == Null then Exited else Running(job.task)])
  }

  /** A closure returns or throws; either way the worker goes on. */
  ghost predicate Finish(s: Pool, s': Pool, w: nat) {
    && w < |s.workers| && s.workers[w].Running?
    && s' == s.(workers := s.workers[w := Idle], done := s.done + [s.workers[w].task])
  }

  ghost predicate Join(s: Pool, s': Pool) {
    && s.stopping && s.nulls == |s.workers| && s.joined < |s.workers| && s.workers[s.joined] == Exited
    && s' == s.(joined := s.joined + 1)
  }

  /** The steps that need nobody outside the pool. */
  ghost predicate Inner(s: Pool, s': Pool) {
    PushNull(s, s') || (exists w :: Pop(s, s', w)) || (exists w :: Finish(s, s', w)) || Join(s, s')
  }

  ghost predicate Next(s: Pool, s': Pool) {
    (exists task :: Add(s, s', task)) || Stop(s, s') || Inner(s, s') || s' == s
  }

  // Bookkeeping over histories.

  ghost function Jobs(taken: seq<(nat, Job)>): (r: seq<Job>)
    ensures |r| == |taken| && forall k :: 0 <= k < |r| ==> r[k] == taken[k].1
  {
    seq(|taken|, k requires 0 <= k < |taken| => taken[k].1)
  }

  /** How many sentinels worker w has taken. */
  ghost function NullsOf(taken: seq<(nat, Job)>, w: nat): nat {
    if taken == [] then 0
    else NullsOf(taken[..|taken| - 1], w) + (if taken[|taken| - 1] == (w, Null) then 1 else 0)
  }

  ghost function NullsIn(jobs: seq<Job>): nat {
    if jobs == [] then 0 else NullsIn(jobs[..|jobs| - 1]) + (if jobs[|jobs| - 1] == Null then 1 else 0)
  }

  ghost function TasksIn(jobs: seq<Job>): multiset<Task> {
    if jobs == [] then multiset{}
    else TasksIn(jobs[..|jobs| - 1]) + (if jobs[|jobs| - 1] == Null then multiset{} else multiset{jobs[|jobs| - 1].task})
  }

  ghost function RunningTasks(workers: seq<Worker>): multiset<Task> {
    if workers == [] then multiset{}
    else RunningTasks(workers[..|workers| - 1]) + TaskOf(workers[|workers| - 1])
  }

  ghost function TaskOf(worker: Worker): multiset<Task> {
    if worker.Running? then multiset{worker.task} else multiset{}
  }

  ghost function ExitedCount(workers: seq<Worker>): nat {
    if workers == [] then 0
    else ExitedCount(workers[..|workers| - 1]) + ExitOf(workers[|workers| - 1])
  }

  ghost predicate Inv(s: Pool) {
    && 0 < |s.workers| && |s.queue| <= |s.workers|
    // The queue is first in, first out.
    && s.pushed == Jobs(s.taken) + s.queue
    && NullsIn(s.pushed) == s.nulls <= |s.workers| && (s.nulls > 0 ==> s.stopping)
    // A worker has taken a sentinel exactly if it has left.
    && (forall w :: 0 <= w < |s.workers| ==> NullsOf(s.taken, w) == if s.workers[w] == Exited then 1 else 0)
    && NullsIn(Jobs(s.taken)) == ExitedCount(s.workers)
    // The last job that was popped when all workers have left is a sentinel.
    && (ExitedCount(s.workers) == |s.workers| ==> s.taken != [] && s.taken[|s.taken| - 1].1 == Null)
    // Every task taken is being run or has been run.
    && TasksIn(Jobs(s.taken)) == multiset(s.done) + RunningTasks(s.workers)
    && s.joined <= |s.workers| && (s.joined > 0 ==> s.stopping && s.nulls == |s.workers|)
    && (forall w :: 0 <= w < s.joined ==> s.workers[w] == Exited)
  }

  ghost function ExitOf(worker: Worker): nat {
    if worker == Exited then 1 else 0
  }

  /** How the two counts change when one worker changes. */
  lemma {:induction false} OneWorker(workers: seq<Worker>, w: nat, v: Worker)
    requires w < |workers|
    ensures var after := workers[w := v];
      && ExitedCount(after) + ExitOf(workers[w]) == ExitedCount(workers) + ExitOf(v)
      && RunningTasks(after) + TaskOf(workers[w]) == RunningTasks(workers) + TaskOf(v)
  {
    hide RunningTasks, ExitedCount, TaskOf, ExitOf;
    var after, n := workers[w := v], |workers| - 1;
    LastWorker(workers);
    LastWorker(after);
    if w == n {
      assert after[..n] == workers[..n];
      Regroup(RunningTasks(workers[..n]), TaskOf(workers[n]), TaskOf(v));
    } else {
      OneWorker(workers[..n], w, v);
      assert after[..n] == workers[..n][w := v];
      assert after[n] == workers[n] && workers[..n][w] == workers[w];
      CarryLast(RunningTasks(workers[..n]), RunningTasks(after[..n]), TaskOf(workers[n]), TaskOf(workers[w]), TaskOf(v));
    }
  }

  lemma {:induction false} LastWorker(workers: seq<Worker>)
    requires workers != []
    ensures var n := |workers| - 1;
      && ExitedCount(workers) == ExitedCount(workers[..n]) + ExitOf(workers[n])
      && RunningTasks(workers) == RunningTasks(workers[..n]) + TaskOf(workers[n])
  {}

  lemma Regroup(a: multiset<Task>, was: multiset<Task>, now: multiset<Task>)
    ensures (a + now) + was == (a + was) + now
  {}

  lemma CarryLast(a: multiset<Task>, b: multiset<Task>, last: multiset<Task>, was: multiset<Task>,
                                     now: multiset<Task>)
    requires b + was == a + now
    ensures (b + last) + was == (a + last) + now
  {
    assert (b + last) + was == (b + was) + last;
    assert (a + last) + now == (a + now) + last;
  }

  lemma InitInv(s: Pool)
    requires Init(s)
    ensures Inv(s)
  {
    AllIdle(s.workers);
  }

  lemma {:induction false} AllIdle(workers: seq<Worker>)
    requires forall w :: 0 <= w < |workers| ==> workers[w] == Idle
    ensures ExitedCount(workers) == 0 && RunningTasks(workers) == multiset{}
  {
    if workers != [] {
      AllIdle(workers[..|workers| - 1]);
    }
  }

  lemma PopKeeps(s: Pool, s': Pool, w: nat)
    requires Inv(s) && Pop(s, s', w)
    ensures Inv(s')
  {
    hide RunningTasks, ExitedCount, NullsIn, TasksIn, NullsOf, Jobs;
    var job := s.queue[0];
    TakeOne(s.taken, w, job);
    OneWorker(s.workers, w, s'.workers[w]);
    assert Jobs(s'.taken) == Jobs(s.taken) + [job];
    assert Jobs(s'.taken) + s'.queue == Jobs(s.taken) + s.queue;
    IdleIsLeft(s.workers, w);
    IdleIsLeft(s'.workers, w);
    assert TaskOf(s'.workers[w]) == if job == Null then multiset{} else multiset{job.task};
    RunsOneMore(RunningTasks(s.workers), RunningTasks(s'.workers), multiset(s.done), s'.workers[w]);
  }

  lemma RunsOneMore(a: multiset<Task>, b: multiset<Task>, done: multiset<Task>, worker: Worker)
    requires b + TaskOf(Idle) == a + TaskOf(worker)
    ensures (done + a) + TaskOf(worker) == done + b
  {
    assert b + TaskOf(Idle) == b;
  }

  lemma {:induction false} IdleIsLeft(workers: seq<Worker>, w: nat)
    requires w < |workers|
    ensures ExitedCount(workers) <= |workers| && (workers[w] != Exited ==> ExitedCount(workers) < |workers|)
  {
    ExitedAtMost(workers);
  }

  /** The history grows by one job. */
  lemma {:induction false} TakeOne(taken: seq<(nat, Job)>, w: nat, job: Job)
    ensures var after := taken + [(w, job)];
      && NullsIn(Jobs(after)) == NullsIn(Jobs(taken)) + (if job == Null then 1 else 0)
      && TasksIn(Jobs(after)) == TasksIn(Jobs(taken)) + (if job == Null then multiset{} else multiset{job.task})
      && forall v :: NullsOf(after, v) == NullsOf(taken, v) + (if v == w && job == Null then 1 else 0)
  {
    var after, n := taken + [(w, job)], |taken|;
    assert after[..n] == taken;
    assert Jobs(after)[..n] == Jobs(taken) && Jobs(after)[n] == job;
  }

  lemma FinishKeeps(s: Pool, s': Pool, w: nat)
    requires Inv(s) && Finish(s, s', w)
    ensures Inv(s')
  {
    hide NullsIn, TasksIn, NullsOf, RunningTasks, ExitedCount;
    OneWorker(s.workers, w, Idle);
    IdleIsLeft(s'.workers, w);
    var a, b, one := RunningTasks(s.workers), RunningTasks(s'.workers), multiset{s.workers[w].task};
    assert b + one == a;
    assert multiset(s'.done) + b == multiset(s.done) + (b + one);
  }

  lemma OuterKeeps(s: Pool, s': Pool)
    requires Inv(s) && (Stop(s, s') || PushNull(s, s') || Join(s, s') || exists task :: Add(s, s', task))
    ensures Inv(s')
  {
    hide NullsIn, TasksIn, NullsOf, RunningTasks, ExitedCount;
    if task :| Add(s, s', task) {
      PushOne(s.pushed, Run(task));
      assert Jobs(s.taken) + s'.queue == (Jobs(s.taken) + s.queue) + [Run(task)];
    } else if PushNull(s, s') {
      PushOne(s.pushed, Null);
      assert Jobs(s.taken) + s'.queue == (Jobs(s.taken) + s.queue) + [Null];
    }
  }

  lemma {:induction false} PushOne(pushed: seq<Job>, job: Job)
    ensures NullsIn(pushed + [job]) == NullsIn(pushed) + (if job == Null then 1 else 0)
  {
    assert (pushed + [job])[..|pushed|] == pushed;
  }

  lemma NextInv(s: Pool, s': Pool)
    requires Inv(s) && Next(s, s')
    ensures Inv(s')
  {
    hide Inv;
    if w: nat :| Pop(s, s', w) {
      PopKeeps(s, s', w);
    } else if w: nat :| Finish(s, s', w) {
      FinishKeeps(s, s', w);
    } else if s' != s {
      OuterKeeps(s, s');
    }
  }

  ghost predicate IsRun(run: seq<Pool>) {
    run != [] && Init(run[0]) && forall k :: 0 <= k < |run| - 1 ==> Next(run[k], run[k + 1])
  }

  lemma {:induction false} RunInv(run: seq<Pool>, k: nat)
    requires IsRun(run) && k < |run|
    ensures Inv(run[k])
  {
    if k == 0 {
      InitInv(run[0]);
    } else {
      RunInv(run, k - 1);
      NextInv(run[k - 1], run[k]);
    }
  }

  // After the last join.

  lemma {:induction false} AllExited(workers: seq<Worker>)
    requires forall w :: 0 <= w < |workers| ==> workers[w] == Exited
    ensures ExitedCount(workers) == |workers| && RunningTasks(workers) == multiset{}
  {
    if workers != [] {
      AllExited(workers[..|workers| - 1]);
    }
  }

  lemma {:induction false} NullsConcat(a: seq<Job>, b: seq<Job>)
    ensures NullsIn(a + b) == NullsIn(a) + NullsIn(b)
  {
    if b == [] {
      assert a + b == a;
    } else {
      assert (a + b)[..|a + b| - 1] == a + b[..|b| - 1];
      NullsConcat(a, b[..|b| - 1]);
    }
  }

  lemma {:induction false} TasksConcat(a: seq<Job>, b: seq<Job>)
    ensures TasksIn(a + b) == TasksIn(a) + TasksIn(b)
  {
    hide TasksIn;
    if b == [] {
      assert a + b == a;
      NoTasks();
    } else {
      var n := |b| - 1;
      assert (a + b)[..|a| + n] == a + b[..n] && (a + b)[|a| + n] == b[n];
      TasksConcat(a, b[..n]);
      LastTask(a + b);
      LastTask(b);
    }
  }

  lemma NoTasks()
    ensures TasksIn([]) == multiset{}
  {}

  lemma {:induction false} LastTask(jobs: seq<Job>)
    requires jobs != []
    ensures var n := |jobs| - 1;
      TasksIn(jobs) == TasksIn(jobs[..n]) + (if jobs[n] == Null then multiset{} else multiset{jobs[n].task})
  {}

  /** Without sentinels there are as many tasks as jobs. */
  lemma {:induction false} AllTasks(jobs: seq<Job>)
    requires NullsIn(jobs) == 0
    ensures |TasksIn(jobs)| == |jobs| && Null !in jobs
  {
    if jobs != [] {
      var n := |jobs| - 1;
      AllTasks(jobs[..n]);
      assert jobs == jobs[..n] + [jobs[n]];
    }
  }

  /**
   In every run, when Stop has joined the last worker: every worker has taken exactly one
   sentinel, and what has run, exactly once each, are the tasks pushed before the last
   sentinel; the tasks pushed behind it stay in the queue.
   */
  lemma StopRuns(run: seq<Pool>, k: nat)
    requires IsRun(run) && k < |run| && run[k].joined == |run[k].workers|
    ensures var s := run[k];
      && (forall w :: 0 <= w < |s.workers| ==> NullsOf(s.taken, w) == 1)
      && |s.queue| < |s.pushed| && s.queue == s.pushed[|s.pushed| - |s.queue|..] && Null !in s.queue
      && s.pushed[|s.pushed| - |s.queue| - 1] == Null
      && multiset(s.done) == TasksIn(s.pushed[..|s.pushed| - |s.queue|])
  {
    RunInv(run, k);
    var s := run[k];
    AllExited(s.workers);
    NullsConcat(Jobs(s.taken), s.queue);
    AllTasks(s.queue);
    assert s.pushed[..|s.pushed| - |s.queue|] == Jobs(s.taken);
    assert TasksIn(Jobs(s.taken)) == multiset(s.done) + multiset{} == multiset(s.done);
  }

  /** So the shutdown has run every task if and only if no task was pushed behind the last sentinel. */
  lemma StopCompletesIff(run: seq<Pool>, k: nat)
    requires IsRun(run) && k < |run| && run[k].joined == |run[k].workers|
    ensures var s := run[k];
      && s.pushed != []
      && (s.queue == [] <==> s.pushed[|s.pushed| - 1] == Null)
      && (multiset(s.done) == TasksIn(s.pushed) <==> s.pushed[|s.pushed| - 1] == Null)
  {
    StopRuns(run, k);
    RunInv(run, k);
    var s := run[k];
    var n := |s.pushed| - |s.queue|;
    NullsConcat(s.pushed[..n], s.queue);
    AllExited(s.workers);
    assert s.pushed == s.pushed[..n] + s.queue;
    TasksConcat(s.pushed[..n], s.queue);
    AllTasks(s.queue);
    if s.queue == [] {
      assert s.pushed[..n] == s.pushed;
    } else {
      assert s.pushed[|s.pushed| - 1] == s.queue[|s.queue| - 1];
      assert |TasksIn(s.pushed)| == |TasksIn(s.pushed[..n])| + |s.queue|;
    }
  }

  /** Both happen: a task added behind the sentinel of the only worker is never run. */
  lemma {:induction false} AddedTooLate(task: Task) returns (run: seq<Pool>)
    ensures IsRun(run) && run != []
    ensures var s := run[|run| - 1]; s.joined == |s.workers| && s.queue == [Run(task)] && s.done == []
  {
    var start := Pool([], [Idle], false, 0, 0, [], [], []);
    var stopped := start.(stopping := true);
    var signalled := stopped.(queue := [Null], pushed := [Null], nulls := 1);
    var left := signalled.(queue := [], workers := [Exited], taken := [(0, Null)]);
    var added := left.(queue := [Run(task)], pushed := [Null, Run(task)]);
    run := [start, stopped, signalled, left, added, added.(joined := 1)];
    assert Stop(start, stopped) && PushNull(stopped, signalled);
    assert Pop(signalled, left, 0);
    assert Add(left, added, task) && Join(added, run[5]);
  }

  /** One worker is given a task, runs it and is stopped. */
  ghost function InTime(task: Task): (run: seq<Pool>)
    ensures |run| == 8
  {
    var start := Pool([], [Idle], false, 0, 0, [], [], []);
    var added := start.(queue := [Run(task)], pushed := [Run(task)]);
    var busy := added.(queue := [], workers := [Running(task)], taken := [(0, Run(task))]);
    var stopped := busy.(stopping := true);
    var signalled := stopped.(queue := [Null], pushed := [Run(task), Null], nulls := 1);
    var finished := signalled.(workers := [Idle], done := [task]);
    var left := finished.(queue := [], workers := [Exited], taken := [(0, Run(task)), (0, Null)]);
    [start, added, busy, stopped, signalled, finished, left, left.(joined := 1)]
  }

  lemma InTimeStep(task: Task, k: nat)
    requires k < 7
    ensures Next(InTime(task)[k], InTime(task)[k + 1])
  {
    var s, s' := InTime(task)[k], InTime(task)[k + 1];
    match k {
      case 0 => assert Add(s, s', task);
      case 1 => assert Pop(s, s', 0);
      case 4 => assert Finish(s, s', 0);
      case 5 => assert Pop(s, s', 0);
      case _ =>
    }
  }

  /** While a task added before it is. */
  lemma {:induction false} AddedInTime(task: Task) returns (run: seq<Pool>)
    ensures IsRun(run) && run != []
    ensures var s := run[|run| - 1]; s.joined == |s.workers| && s.queue == [] && s.done == [task]
  {
    run := InTime(task);
    forall k | 0 <= k < |run| - 1
      ensures Next(run[k], run[k + 1])
    {
      InTimeStep(task, k);
    }
    hide Next;
  }

  /** Every call of Add has returned before Stop begins. */
  ghost predicate AddsComeFirst(run: seq<Pool>) {
    forall k :: 0 <= k < |run| - 1 && run[k].stopping ==> TasksIn(run[k + 1].pushed) == TasksIn(run[k].pushed)
  }

  lemma {:induction false} RunPushed(pushed: seq<Job>, task: Task)
    ensures TasksIn(pushed + [Run(task)]) != TasksIn(pushed)
  {
    LastTask(pushed + [Run(task)]);
    assert (pushed + [Run(task)])[..|pushed|] == pushed;
    assert TasksIn(pushed + [Run(task)])[task] == TasksIn(pushed)[task] + 1;
  }

  ghost predicate EndsInNull(s: Pool) {
    s.nulls > 0 ==> s.pushed != [] && s.pushed[|s.pushed| - 1] == Null
  }

  lemma SentinelStaysLast(s: Pool, s': Pool)
    requires Inv(s) && Next(s, s') && EndsInNull(s) && (s.stopping ==> TasksIn(s'.pushed) == TasksIn(s.pushed))
    ensures EndsInNull(s')
  {
    hide NullsIn, TasksIn, NullsOf, RunningTasks, ExitedCount, Jobs;
    if task :| Add(s, s', task) {
      RunPushed(s.pushed, task);
    }
  }

  lemma {:induction false} SentinelsComeLast(run: seq<Pool>, k: nat)
    requires IsRun(run) && AddsComeFirst(run) && k < |run|
    ensures EndsInNull(run[k])
  {
    hide Inv, Next, TasksIn;
    if k > 0 {
      RunInv(run, k - 1);
      SentinelsComeLast(run, k - 1);
      assert run[k - 1 + 1] == run[k];
      SentinelStaysLast(run[k - 1], run[k]);
    }
  }

  /**
   With all additions before Stop: when the last join returns the queue is empty, every task
   added has run exactly once, and every worker has taken exactly one sentinel.
   */
  lemma StopCompletes(run: seq<Pool>, k: nat)
    requires IsRun(run) && AddsComeFirst(run) && k < |run| && run[k].joined == |run[k].workers|
    ensures var s := run[k];
      && s.queue == [] && multiset(s.done) == TasksIn(s.pushed)
      && forall w :: 0 <= w < |s.workers| ==> NullsOf(s.taken, w) == 1
  {
    RunInv(run, k);
    StopRuns(run, k);
    StopCompletesIff(run, k);
    SentinelsComeLast(run, k);
  }

  /** In every state of every run the tasks run so far were added, each at most as often. */
  lemma NeverRunTwice(run: seq<Pool>, k: nat)
    requires IsRun(run) && k < |run|
    ensures multiset(run[k].done) + RunningTasks(run[k].workers) <= TasksIn(run[k].pushed)
  {
    RunInv(run, k);
    TasksConcat(Jobs(run[k].taken), run[k].queue);
  }

  // The shutdown gets there.

  lemma {:induction false} FindIdle(workers: seq<Worker>) returns (w: nat)
    requires ExitedCount(workers) < |workers| && forall v :: 0 <= v < |workers| ==> !workers[v].Running?
    ensures w < |workers| && workers[w] == Idle
  {
    w := |workers| - 1;
    if workers[w] != Idle {
      w := FindIdle(workers[..w]);
    }
  }

  lemma {:induction false} ExitedAtMost(workers: seq<Worker>)
    ensures ExitedCount(workers) <= |workers|
    ensures ExitedCount(workers) == |workers| ==> forall v :: 0 <= v < |workers| ==> workers[v] == Exited
  {
    if workers != [] {
      ExitedAtMost(workers[..|workers| - 1]);
    }
  }

  /** Once stopping, the pool can always go on by itself until the last worker is joined. */
  lemma {:induction false} NoDeadlock(s: Pool) returns (s': Pool)
    requires Inv(s) && s.stopping && s.joined < |s.workers|
    ensures Inner(s, s')
  {
    NullsConcat(Jobs(s.taken), s.queue);
    ExitedAtMost(s.workers);
    if w :| 0 <= w < |s.workers| && s.workers[w].Running? {
      s' := s.(workers := s.workers[w := Idle], done := s.done + [s.workers[w].task]);
      assert Finish(s, s', w);
    } else if ExitedCount(s.workers) < |s.workers| {
      var w := FindIdle(s.workers);
      if s.queue != [] {
        var job := s.queue[0];
        s' := s.(queue := s.queue[1..], taken := s.taken + [(w, job)],
                 workers := s.workers[w := if job == Null then Exited else Running(job.task)]);
        assert Pop(s, s', w);
      } else {
        s' := s.(queue := s.queue + [Null], pushed := s.pushed + [Null], nulls := s.nulls + 1);
        assert PushNull(s, s');
      }
    } else {
      s' := s.(joined := s.joined + 1);
      assert Join(s, s');
    }
  }

  /** A bound on the steps left. */
  ghost function Left(s: Pool): int {
    3 * (|s.workers| - s.nulls) + 2 * |s.queue| + |RunningTasks(s.workers)| + (|s.workers| - s.joined)
  }

  /** Every step the pool takes by itself uses up the bound, so without additions shutdown takes finitely many. */
  lemma EveryStepCounts(s: Pool, s': Pool)
    requires Inv(s) && s.stopping && Inner(s, s')
    ensures 0 <= Left(s') < Left(s)
  {
    hide NullsIn, TasksIn, NullsOf, RunningTasks, ExitedCount, Jobs;
    if w: nat :| Pop(s, s', w) {
      PopKeeps(s, s', w);
      RunningCount(s, s', w);
    } else if w: nat :| Finish(s, s', w) {
      FinishKeeps(s, s', w);
      RunningCount(s, s', w);
    } else {
      OuterKeeps(s, s');
    }
  }

  lemma RunningCount(s: Pool, s': Pool, w: nat)
    requires w < |s.workers| == |s'.workers| && s'.workers == s.workers[w := s'.workers[w]]
    ensures |RunningTasks(s'.workers)| + (if s.workers[w].Running? then 1 else 0)
         == |RunningTasks(s.workers)| + (if s'.workers[w].Running? then 1 else 0)
  {
    hide RunningTasks;
    OneWorker(s.workers, w, s'.workers[w]);
    SameSize(RunningTasks(s.workers), RunningTasks(s'.workers), s.workers[w], s'.workers[w]);
  }

  lemma SameSize(a: multiset<Task>, b: multiset<Task>, was: Worker, now: Worker)
    requires b + TaskOf(was) == a + TaskOf(now)
    ensures |b| + (if was.Running? then 1 else 0) == |a| + (if now.Running? then 1 else 0)
  {
    assert |b + TaskOf(was)| == |b| + |TaskOf(was)|;
    assert |a + TaskOf(now)| == |a| + |TaskOf(now)|;
  }
}
