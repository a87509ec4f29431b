/** The class `thread_pool`, one method per lock-delimited region.  A ghost state, reached by
    some run of the transition system, says where every thread is; each method is proved to take the step
    of the thread that runs it, so everything that is proved about runs holds of the object. */
module ThreadPools {
  import opened Common
  import opened PoolModel
  import opened PoolInvariant
  import opened PoolSafety
  import opened PoolProgress
  import opened PoolTheorems
  import opened LoopBlocks

  /** A step that writes this value to `paused`: pause, unpause, and the two regions of reset. */
  predicate SetsPaused(s: State, act: Action, value: bool) {
    || (act == ClientCall(Pause) && value)
    || (act == ClientCall(Unpause) && !value)
    || (act.ClientCall? && act.api.Reset? && value)
    || (act.ClientGo? && s.client == Restoring(value))
  }

  /** A step that pushes this job: of the client in a detach call, or of a worker inside a task. */
  predicate Submits(s: State, act: Action, job: Job) {
    || (act.ClientGo? && s.client.Pushing? && s.client.rest != [] && s.client.rest[0] == job)
    || (act.WorkerSubmit? && act.job == job)
  }

  /** The `n` submission numbers from `first` on. */
  function Upward(first: nat, n: nat): (ids: seq<nat>)
    ensures |ids| == n && forall k :: 0 <= k < n ==> ids[k] == first + k
  {
    if n == 0 then [] else Upward(first, n - 1) + [first + n - 1]
  }

  /** A detach call begun in `s0` with `queued` in the queue, after `n` of its jobs. */
  ghost predicate Between(s: State, plan: seq<Job>, n: nat, s0: State, queued: seq<nat>) {
    && n <= |plan|
    && s.client == (if n == |plan| then Idle else Pushing(plan[n..]))
    && s.h.past == s0.h.past + [s0.h.call]
    && s.h.call == DetachCall(plan, Upward(|s0.h.log|, n))
    && s.h.log == s0.h.log + plan[..n] && s.sh.tasks == queued + Upward(|s0.h.log|, n)
  }

  /** A push and its notify_one submit one more job. */
  lemma PushFacts(s: State, plan: seq<Job>, n: nat, s0: State, queued: seq<nat>)
    requires Between(s, plan, n, s0, queued) && n < |plan|
    ensures Enabled(s, ClientGo(None)) && Submits(s, ClientGo(None), plan[n])
    ensures var p := Next(s, ClientGo(None));
      && p.client.Notifying?
      && forall wake :: Enabled(p, ClientGo(wake)) ==> Between(Next(p, ClientGo(wake)), plan, n + 1, s0, queued)
  {
    PlanSteps(plan, n);
    var p := Next(s, ClientGo(None));
    Pushed(s, plan, n, s0, queued);
    forall wake | Enabled(p, ClientGo(wake))
      ensures Between(Next(p, ClientGo(wake)), plan, n + 1, s0, queued)
    {
      NotifyFacts(p, wake);
    }
  }

  /** The push alone. */
  lemma Pushed(s: State, plan: seq<Job>, n: nat, s0: State, queued: seq<nat>)
    requires Between(s, plan, n, s0, queued) && n < |plan| && Enabled(s, ClientGo(None))
    ensures var p := Next(s, ClientGo(None));
      && p.client == Notifying(plan[n + 1..]) && p.h.past == s0.h.past + [s0.h.call]
      && p.h.call == DetachCall(plan, Upward(|s0.h.log|, n + 1))
      && p.h.log == s0.h.log + plan[..n + 1] && p.sh.tasks == queued + Upward(|s0.h.log|, n + 1)
  {
    PlanSteps(plan, n);
    assert |s.h.log| == |s0.h.log| + n;
  }

  lemma AllPushed(s: State, plan: seq<Job>, s0: State, queued: seq<nat>)
    requires Between(s, plan, |plan|, s0, queued)
    ensures s.client == Idle && s.h.past == s0.h.past + [s0.h.call]
    ensures s.h.call.plan == plan && s.h.call.batch == Upward(|s0.h.log|, |s.h.log| - |s0.h.log|)
    ensures s.h.log == s0.h.log + plan && s.sh.tasks == queued + s.h.call.batch
  {
    assert plan[..|plan|] == plan;
  }

  lemma PlanSteps(plan: seq<Job>, n: nat)
    requires n < |plan|
    ensures plan[n..][0] == plan[n] && plan[n..][1..] == plan[n + 1..] && plan[..n + 1] == plan[..n] + [plan[n]]
  {
  }

  lemma NotifyFacts(p: State, wake: Option<nat>)
    requires p.client.Notifying? && Enabled(p, ClientGo(wake))
    ensures var s := Next(p, ClientGo(wake));
      && s.sh == p.sh && s.h == p.h && s.client == if p.client.rest == [] then Idle else Pushing(p.client.rest)
  {
  }

  /** What a worker's decision does to the fields and to itself. */
  lemma TakeFacts(s: State, w: nat)
    requires Reachable(s) && w < |s.ws| && s.ws[w] == Recheck
    ensures Enabled(s, WorkerGo(w, None))
    ensures var s' := Next(s, WorkerGo(w, None));
      && Reachable(s') && s'.sh == TakeRegion(s.sh) && s'.h.log == s.h.log && |s'.ws| == |s.ws|
      && (match TakeDecision(s.sh)
          case Sleep => s'.ws[w] == Sleeping
          case Quit => s'.ws[w] == Exited
          case Take(id) => s'.ws[w] == Exec(id) && s'.sh.running == s.sh.running + 1 <= |s.ws|)
  {
    ReachableNext(s, WorkerGo(w, None));
    CounterAt(s, w);
    CounterAt(Next(s, WorkerGo(w, None)), w);
  }

  class ThreadPool {
    var tasks: seq<nat>       // the queue; a task is named by its submission number
    var tasksRunning: nat
    var waiting: bool
    var paused: bool
    var workersRunning: bool
    var threadCount: nat
    var log: seq<Job>         // the closures submitted so far, by number
    ghost var state: State

    function View(): Shared
      reads this
    {
      Shared(tasks, tasksRunning, waiting, paused, workersRunning)
    }

    ghost predicate Valid()
      reads this
    {
      && Reachable(state) && View() == state.sh && log == state.h.log
      && (!state.client.Creating? ==> |state.ws| == threadCount)
    }

    constructor (requested: nat, hardware: nat)
      requires requested <= UINT_MAX && hardware <= UINT_MAX
      ensures Valid() && state == InitState(threadCount)
      ensures threadCount == DetermineThreadCount(requested, hardware)
    {
      tasks, tasksRunning, waiting, paused, workersRunning := [], 0, false, false, false;
      threadCount := DetermineThreadCount(requested, hardware);
      log := [];
      state := InitState(DetermineThreadCount(requested, hardware));
      new;
      ReachableInit(threadCount);
    }

    /** The region of create_threads: every worker counts as running before it is started. */
    method CreateThreads()
      requires Valid() && state.client.Creating? && state.client.threads == threadCount
      modifies this`tasksRunning, this`workersRunning, this`state
      ensures Valid() && state == Next(old(state), ClientGo(None))
      ensures tasksRunning == |state.ws| == threadCount
    {
      ReachableNext(state, ClientGo(None));
      tasksRunning := threadCount;
      workersRunning := true;
      state := Next(state, ClientGo(None));
    }

    /** Line 586, between the joins and the region of create_threads. */
    method ChooseThreadCount(requested: nat, hardware: nat)
      requires Valid() && state.client.Creating? && state.client.threads == DetermineThreadCount(requested, hardware)
      modifies this`threadCount
      ensures Valid() && threadCount == state.client.threads
    {
      threadCount := DetermineThreadCount(requested, hardware);
    }

    /** The region of destroy_threads: it is reached with no task executing, and when unpaused with none queued. */
    method StopWorkers()
      requires Valid() && state.client.Stopping?
      modifies this`workersRunning, this`state
      ensures Valid() && state == Next(old(state), ClientGo(None))
      ensures !workersRunning && tasksRunning == 0 && (paused || tasks == [])
    {
      ReachableNext(state, ClientGo(None));
      ReachableEnded(state);
      workersRunning := false;
      state := Next(state, ClientGo(None));
    }

    /** The regions that write `paused`, in pause, unpause and reset. */
    method SetPaused(value: bool, ghost act: Action)
      requires Valid() && Enabled(state, act) && SetsPaused(state, act, value)
      modifies this`paused, this`state
      ensures Valid() && paused == value && state == Next(old(state), act)
    {
      ReachableNext(state, act);
      paused := value;
      state := Next(state, act);
    }

    /** purge() pops until the queue is empty; what it discards is the whole queue, front first. */
    method Purge() returns (discarded: seq<nat>)
      requires Valid() && state.client == Idle
      modifies this`tasks, this`state
      ensures Valid() && state == Next(old(state), ClientCall(PoolModel.Purge))
      ensures tasks == [] && discarded == old(tasks) && state.h.purged == old(state.h.purged) + discarded
    {
      ReachableNext(state, ClientCall(PoolModel.Purge));
      discarded := PopAll();
      state := Next(state, ClientCall(PoolModel.Purge));
    }

    method PopAll() returns (discarded: seq<nat>)
      modifies this`tasks
      ensures tasks == [] && discarded == old(tasks)
    {
      discarded := [];
      while tasks != []
        invariant discarded + tasks == old(tasks)
        decreases |tasks|
      {
        discarded := discarded + [tasks[0]];
        tasks := tasks[1..];
      }
    }

    /** The region of detach_task, for the client and for a task that submits another. */
    method DetachTask(job: Job, ghost act: Action) returns (id: nat)
      requires Valid() && Enabled(state, act) && Submits(state, act, job)
      modifies this`tasks, this`log, this`state
      ensures Valid() && state == Next(old(state), act)
      ensures id == |old(log)| && log == old(log) + [job] && tasks == old(tasks) + [id]
    {
      ReachableNext(state, act);
      id := |log|;
      tasks := tasks + [id];
      log := log + [job];
      state := Next(state, act);
    }

    /** Worker `w` has taken the lock after init_task or after a task: the counter is positive, so the
        decrement does not wrap. */
    method DecrementRunning(ghost w: nat)
      requires Valid() && w < |state.ws| && (state.ws[w] == Init || state.ws[w] == Finished)
      modifies this`tasksRunning, this`state
      ensures Valid() && state == Next(old(state), WorkerGo(w, None))
      ensures old(tasksRunning) > 0 && tasksRunning == old(tasksRunning) - 1
    {
      ReachableNext(state, WorkerGo(w, None));
      CounterAt(state, w);
      tasksRunning := Minus1(tasksRunning);
      state := Next(state, WorkerGo(w, None));
    }

    /** Worker `w` evaluates its wait predicate with the lock held and sleeps, leaves, or takes the front
        task; the counter is below the number of threads, so the increment does not wrap. */
    method TryTake(ghost w: nat) returns (taken: Taken)
      requires Valid() && w < |state.ws| && state.ws[w] == Recheck
      modifies this`tasks, this`tasksRunning, this`state
      ensures Valid() && state == Next(old(state), WorkerGo(w, None))
      ensures taken == TakeDecision(old(View()))
      ensures state.ws[w] == match taken case Sleep => Sleeping case Quit => Exited case Take(id) => Exec(id)
      ensures taken.Take? ==> old(tasks) == [taken.id] + tasks && tasksRunning == old(tasksRunning) + 1 <= |state.ws|
      ensures !taken.Take? ==> View() == old(View())
    {
      TakeFacts(state, w);
      taken := TakeOrSleep();
      state := Next(state, WorkerGo(w, None));
    }

    /** Lines 920-936 on the fields. */
    method TakeOrSleep() returns (taken: Taken)
      modifies this`tasks, this`tasksRunning
      ensures taken == TakeDecision(old(View())) && View() == TakeRegion(old(View()))
      ensures taken.Take? ==> old(tasks) == [taken.id] + tasks
    {
      if (paused || tasks == []) && workersRunning {
        taken := Sleep;
      } else if !workersRunning {
        taken := Quit;
      } else {
        taken := Take(tasks[0]);
        tasks := tasks[1..];
        tasksRunning := Plus1(tasksRunning);
      }
    }

    /** wait() from having the lock to returning (`done`) or sleeping.  When it returns unpaused, every
        submission has finished or was purged, once. */
    method WaitOnce() returns (done: bool)
      requires Valid() && (state.client.WaitEntry? || state.client.WaitAwake?)
      modifies this`waiting, this`state
      ensures Valid() && state == Next(old(state), ClientGo(None))
      ensures done == Done(old(View())) && waiting == !done
      ensures state.client == if done then AfterWait(old(state).client.why) else WaitAsleep(old(state).client.why)
      ensures done && !paused ==> forall id: nat :: AllOver(id)
    {
      ReachableNext(state, ClientGo(None));
      waiting := true;
      done := tasksRunning == 0 && (paused || tasks == []);
      if done { waiting := false; }
      state := Next(state, ClientGo(None));
      if done && !paused {
        forall id: nat ensures AllOver(id) { FinishedOrPurged(id); }
      }
    }

    ghost predicate AllOver(id: nat)
      reads this
    {
      multiset(state.h.finished)[id] + multiset(state.h.purged)[id] == if id < |log| then 1 else 0
    }

    lemma FinishedOrPurged(id: nat)
      requires Valid() && tasksRunning == 0 && tasks == []
      ensures AllOver(id)
    {
      ReachableInv(state);
      assert PlacedOnce(state, id);
      NobodyHolds(state.ws, id);
    }

    /** Between the pushes of a loop: detach_task's notify_one, which changes no field of the pool. */
    ghost method NotifyOne()
      requires Valid() && state.client.Notifying?
      modifies this`state
      ensures Valid() && exists wake :: Enabled(old(state), ClientGo(wake)) && state == Next(old(state), ClientGo(wake))
    {
      var wake := SomeWake(state.ws);
      ReachableNext(state, ClientGo(wake));
      state := Next(state, ClientGo(wake));
    }

    /** detach_loop, as one call of the client: it submits the loop's plan, in order, behind what is
        queued, and leaves a complete detach call with that plan. */
    method DetachLoop(first: int, last: int, num: nat)
      requires Valid() && state.client == Idle && threadCount >= 1
      modifies this`tasks, this`log, this`state
      ensures Valid() && state.client == Idle
      ensures state.h.past == old(state.h.past) + [old(state.h.call)]
      ensures state.h.call.plan == LoopPlan(first, last, num, threadCount)
      ensures log == old(log) + state.h.call.plan
      ensures tasks == old(tasks) + state.h.call.batch && state.h.call.batch == Upward(|old(log)|, |log| - |old(log)|)
      ensures |log| - |old(log)| == if last > first then Min(if num > 0 then num else |state.ws|, last - first) else 0
      ensures last > first ==> EvenLoops(log[|old(log)|..], first, last)
    {
      ghost var plan := LoopPlan(first, last, num, threadCount);
      BeginDetach(plan);
      if last > first {
        DetachBlocks(Split(first, last, if num > 0 then num else threadCount), plan, old(state), old(tasks));
      }
      AllPushed(state, plan, old(state), old(tasks));
      PlanShape(first, last, num, threadCount);
      assert log[|old(log)|..] == plan;
    }

    /** The loop of lines 511-517, given the blocks. */
    method DetachBlocks(b: Blocks, ghost plan: seq<Job>, ghost s0: State, ghost queued: seq<nat>)
      requires Valid() && Between(state, plan, 0, s0, queued) && plan == PlanPrefix(b, b.numBlocks)
      modifies this`tasks, this`log, this`state
      ensures Valid() && Between(state, plan, |plan|, s0, queued)
    {
      var blk := 0;
      while blk < b.numBlocks
        invariant 0 <= blk <= b.numBlocks
        invariant Valid() && Between(state, plan, blk, s0, queued)
      {
        DetachOne(Loop(b.Start(blk), b.End(blk)), plan, blk, s0, queued);
        blk := blk + 1;
      }
    }

    ghost method BeginDetach(plan: seq<Job>)
      requires Valid() && state.client == Idle
      modifies this`state
      ensures Valid() && Between(state, plan, 0, old(state), old(tasks))
    {
      ReachableNext(state, ClientCall(Detach(plan)));
      state := Next(state, ClientCall(Detach(plan)));
      assert plan[0..] == plan;
    }

    /** detach_task in the middle of a detach call. */
    method DetachOne(job: Job, ghost plan: seq<Job>, ghost n: nat, ghost s0: State, ghost queued: seq<nat>)
      requires Valid() && Between(state, plan, n, s0, queued) && n < |plan| && job == plan[n]
      modifies this`tasks, this`log, this`state
      ensures Valid() && Between(state, plan, n + 1, s0, queued)
    {
      PushFacts(state, plan, n, s0, queued);
      var _ := DetachTask(job, ClientGo(None));
      NotifyOne();
    }
  }
}
