/** What the pool promises its users, over whole runs of any length with any number of workers. */
module PoolTheorems {
  import opened PoolModel
  import opened PoolInvariant
  import opened PoolSafety
  import opened PoolProgress
  import opened PoolReset

  // ---------- the counter ----------

  /** `tasks_running` is exact in every reachable state, and a worker about to decrement finds it
      positive: the counter never wraps. */
  lemma CounterIsExact(threads: nat, states: seq<State>, acts: seq<Action>, k: nat, w: nat)
    requires 1 <= threads <= UINT_MAX && Run(states, acts) && states[0] == InitState(threads)
    requires k < |states| && w < |states[k].ws|
    ensures states[k].sh.running == Busy(states[k].ws) <= |states[k].ws|
    ensures states[k].ws[w] == Init || states[k].ws[w] == Finished || states[k].ws[w].Exec? ==> states[k].sh.running > 0
  {
    InvOnRuns(threads, states, acts, k);
    SumBound(states[k].ws, BusyBit, 1);
    SumAtLeast(states[k].ws, w, BusyBit);
  }

  // ---------- completion ----------

  /** Each submitted task is in exactly one place; in particular none is dequeued twice. */
  lemma EachTaskOnce(threads: nat, states: seq<State>, acts: seq<Action>, k: nat, id: nat)
    requires 1 <= threads <= UINT_MAX && Run(states, acts) && states[0] == InitState(threads) && k < |states|
    ensures var s := states[k];
      && multiset(s.sh.tasks)[id] + Holding(s.ws, id) + multiset(s.h.finished)[id] + multiset(s.h.purged)[id]
         == (if id < |s.h.log| then 1 else 0)
      && multiset(s.h.started)[id] <= 1
  {
    InvOnRuns(threads, states, acts, k);
    assert PlacedOnce(states[k], id);
  }

  /** Without purge the submission order is the dequeue order followed by the current queue. */
  lemma FirstInFirstOut(threads: nat, states: seq<State>, acts: seq<Action>, k: nat)
    requires 1 <= threads <= UINT_MAX && Run(states, acts) && states[0] == InitState(threads) && k < |states|
    requires states[k].h.purged == []
    ensures var s := states[k];
      && |s.h.started + s.sh.tasks| == |s.h.log|
      && forall id :: 0 <= id < |s.h.log| ==> (s.h.started + s.sh.tasks)[id] == id
  {
    InvOnRuns(threads, states, acts, k);
    RemainingAll(|states[k].h.log|);
  }

  lemma {:induction false} RemainingAll(n: nat)
    ensures |Remaining(n, [])| == n && forall i :: 0 <= i < n ==> Remaining(n, [])[i] == i
  {
    if n > 0 { RemainingAll(n - 1); }
  }

  /** A step on which wait() stops waiting. */
  predicate WaitEnds(s: State, a: Action) {
    a.ClientGo? && (s.client.WaitEntry? || s.client.WaitAwake?) && Done(s.sh)
  }

  /** When wait() returns, no task is executing; when it returns unpaused, every task submitted before
      that moment has finished, once, unless it was purged, once. */
  lemma WaitMeansDone(threads: nat, states: seq<State>, acts: seq<Action>, k: nat, id: nat)
    requires 1 <= threads <= UINT_MAX && Run(states, acts) && states[0] == InitState(threads)
    requires k < |acts| && WaitEnds(states[k], acts[k])
    ensures var s := states[k + 1];
      && s.client == AfterWait(states[k].client.why) && !s.sh.waiting
      && multiset(s.h.started)[id] == multiset(s.h.finished)[id]
      && (!s.sh.paused ==> s.sh.tasks == [])
      && (!s.sh.paused ==> multiset(s.h.finished)[id] + multiset(s.h.purged)[id] == if id < |s.h.log| then 1 else 0)
  {
    InvOnRuns(threads, states, acts, k);
    InvOnRuns(threads, states, acts, k + 1);
    assert Enabled(states[k], acts[k]) && states[k + 1] == Next(states[k], acts[k]);
    var s := states[k + 1];
    assert PlacedOnce(s, id);
    NobodyHolds(s.ws, id);
  }

  lemma {:induction false} NobodyHolds(ws: seq<WorkerPc>, id: nat)
    requires Busy(ws) == 0
    ensures Holding(ws, id) == 0
  {
    if ws != [] { NobodyHolds(ws[1..], id); }
  }

  // ---------- wakeups ----------

  /** If the client sleeps in wait() although its predicate holds, then the workers know it is waiting
      and one of them is on its way to notify. */
  lemma NoLostWakeup(threads: nat, states: seq<State>, acts: seq<Action>, k: nat)
    requires 1 <= threads <= UINT_MAX && Run(states, acts) && states[0] == InitState(threads) && k < |states|
    requires states[k].client.WaitAsleep? && Done(states[k].sh)
    ensures states[k].sh.waiting && SomeoneWillSignal(states[k])
  {
    InvOnRuns(threads, states, acts, k);
  }

  /** Never a sleeper beside more queued tasks than workers and notifications heading for them, whatever
      happens, as long as every reset() is made while the pool is paused or has nothing to do. */
  lemma WorkIsConserved(threads: nat, states: seq<State>, acts: seq<Action>, k: nat)
    requires 1 <= threads <= UINT_MAX && Run(states, acts) && states[0] == InitState(threads) && k < |states|
    requires HarmlessResets(states, acts, 0)
    ensures Conserved(states[k])
  {
    InvOnRuns(threads, states, acts, k);
    HarmlessAlong(states, acts, 0, k);
  }

  // ---------- termination ----------

  /** In the destructor, from its wait() to the last join. */
  predicate Destroying(c: ClientPc) {
    match c
    case WaitEntry(why) => why.DtorWait?
    case WaitAsleep(why) => why.DtorWait?
    case WaitAwake(why) => why.DtorWait?
    case Stopping(then_) => then_.Destroy?
    case StopNotify(then_) => then_.Destroy?
    case Joining(_, then_) => then_.Destroy?
    case Gone => true
    case _ => false
  }

  lemma DestroyingKept(s: State, a: Action)
    requires Destroying(s.client) && Enabled(s, a)
    ensures Destroying(Next(s, a).client)
  {
    if a.WorkerGo? { WorkerHasEffect(s, a.w, a); }
  }

  lemma {:induction false} DestroyingAlong(states: seq<State>, acts: seq<Action>, k: nat)
    requires Run(states, acts) && Destroying(states[0].client) && k < |states|
    ensures Destroying(states[k].client)
  {
    if k > 0 {
      DestroyingAlong(states, acts, k - 1);
      var s, a := states[k - 1], acts[k - 1];
      assert Enabled(s, a) && states[k - 1 + 1] == Next(s, a);
      DestroyingKept(s, a);
    }
  }

  lemma WaitingKept(s: State, a: Action)
    requires UserWaiting(s.client) && Enabled(s, a)
    ensures UserWaiting(Next(s, a).client) || Next(s, a).client == Idle
  {
    if a.WorkerGo? { WorkerHasEffect(s, a.w, a); }
  }

  lemma {:induction false} WaitingAlong(states: seq<State>, acts: seq<Action>, k: nat)
    requires Run(states, acts) && NoCalls(acts) && UserWaiting(states[0].client) && k < |states|
    ensures UserWaiting(states[k].client) || states[k].client == Idle
  {
    if k > 0 {
      WaitingAlong(states, acts, k - 1);
      var s, a := states[k - 1], acts[k - 1];
      assert Enabled(s, a) && states[k - 1 + 1] == Next(s, a) && !a.ClientCall?;
      if s.client == Idle { IdleStays(s, a); } else { WaitingKept(s, a); }
    }
  }

  lemma IdleStays(s: State, a: Action)
    requires s.client == Idle && Enabled(s, a) && !a.ClientCall?
    ensures Next(s, a).client == Idle
  {
    if a.WorkerGo? { WorkerHasEffect(s, a.w, a); }
  }

  /** wait() returns: from a state in wait() that no harmful reset() precedes, a run makes at most
      `Measure + 13 * disturbances` steps, and one that cannot go on has returned to the client. */
  lemma WaitReturns(states: seq<State>, acts: seq<Action>)
    requires Run(states, acts) && NoCalls(acts) && Inv(states[0]) && Harmless(states[0])
    requires UserWaiting(states[0].client)
    ensures |acts| <= Measure(states[0]) + 13 * Disturbances(acts)
    ensures Stuck(states[|acts|]) ==> states[|acts|].client == Idle
  {
    RunsAreBounded(states, acts);
    HarmlessAlong(states, acts, 0, |acts|);
    WaitingAlong(states, acts, |acts|);
    if Stuck(states[|acts|]) { MaximalRunReturns(states, acts); }
  }

  /** The destructor ends: its runs are bounded in the same way, and one that cannot go on has joined
      every worker, all of them exited. */
  lemma DestructorReturns(states: seq<State>, acts: seq<Action>)
    requires Run(states, acts) && NoCalls(acts) && Inv(states[0]) && Harmless(states[0])
    requires Destroying(states[0].client)
    ensures |acts| <= Measure(states[0]) + 13 * Disturbances(acts)
    ensures Stuck(states[|acts|]) ==>
      states[|acts|].client == Gone && forall w :: 0 <= w < |states[|acts|].ws| ==> states[|acts|].ws[w] == Exited
  {
    RunsAreBounded(states, acts);
    HarmlessAlong(states, acts, 0, |acts|);
    DestroyingAlong(states, acts, |acts|);
    InvAlong(states, acts, |acts|);
    if Stuck(states[|acts|]) { MaximalRunReturns(states, acts); }
  }

  lemma RunSuffix(states: seq<State>, acts: seq<Action>, k: nat)
    requires Run(states, acts) && k < |states|
    ensures Run(states[k..], acts[k..])
  {
    var ss, aa := states[k..], acts[k..];
    forall i | 0 <= i < |aa|
      ensures Enabled(ss[i], aa[i]) && ss[i + 1] == Next(ss[i], aa[i])
    {
      assert ss[i] == states[k + i] && aa[i] == acts[k + i] && ss[i + 1] == states[k + i + 1];
    }
  }

  /** From a new pool, in every run whose resets are made paused or drained: however the client came to call wait() at step `k`,
      the rest of the run is bounded, and if the pool's code has nothing left to do, wait() has returned. */
  lemma EveryWaitReturns(threads: nat, states: seq<State>, acts: seq<Action>, k: nat)
    requires 1 <= threads <= UINT_MAX && Run(states, acts) && states[0] == InitState(threads)
    requires HarmlessResets(states, acts, 0)
    requires k < |states| && UserWaiting(states[k].client) && NoCalls(acts[k..])
    ensures |acts| - k <= Measure(states[k]) + 13 * Disturbances(acts[k..])
    ensures Stuck(states[|acts|]) ==> states[|acts|].client == Idle
  {
    InvOnRuns(threads, states, acts, k);
    HarmlessAlong(states, acts, 0, k);
    RunSuffix(states, acts, k);
    WaitReturns(states[k..], acts[k..]);
    assert states[k..][|acts[k..]|] == states[|acts|];
  }

  /** The same for the destructor: it ends with every worker joined. */
  lemma EveryDestructorReturns(threads: nat, states: seq<State>, acts: seq<Action>, k: nat)
    requires 1 <= threads <= UINT_MAX && Run(states, acts) && states[0] == InitState(threads)
    requires HarmlessResets(states, acts, 0)
    requires k < |states| && Destroying(states[k].client) && NoCalls(acts[k..])
    ensures |acts| - k <= Measure(states[k]) + 13 * Disturbances(acts[k..])
    ensures Stuck(states[|acts|]) ==>
      states[|acts|].client == Gone && forall w :: 0 <= w < |states[|acts|].ws| ==> states[|acts|].ws[w] == Exited
  {
    InvOnRuns(threads, states, acts, k);
    HarmlessAlong(states, acts, 0, k);
    RunSuffix(states, acts, k);
    DestructorReturns(states[k..], acts[k..]);
    assert states[k..][|acts[k..]|] == states[|acts|];
  }

  // ---------- notifications ----------

  function SleepBit(pc: WorkerPc): nat { if pc == Sleeping then 1 else 0 }

  function Sleepers(ws: seq<WorkerPc>): nat { Sum(ws, SleepBit) }

  /** The notify_one of a submission wakes exactly one sleeper if there is one, and nobody else. */
  lemma NotifyWakesOne(s: State, wake: Option<nat>)
    requires s.client.Notifying? && Enabled(s, ClientGo(wake))
    ensures var t := ClientNext(s, wake);
      && t.sh == s.sh && |t.ws| == |s.ws|
      && (HasSleeper(s.ws) ==> Sleepers(t.ws) + 1 == Sleepers(s.ws))
      && (!HasSleeper(s.ws) ==> t.ws == s.ws)
  {
    if wake.Some? { SumUpdate(s.ws, wake.value, Recheck, SleepBit); }
  }

  /** The notify_all of unpause wakes every sleeper. */
  lemma {:induction false} UnpauseWakesAll(ws: seq<WorkerPc>)
    ensures Sleepers(WakeAll(ws)) == 0
  {
    if ws != [] {
      UnpauseWakesAll(ws[1..]);
      assert WakeAll(ws)[1..] == WakeAll(ws[1..]);
    }
  }

  // ---------- workers ----------

  predicate SizeIs(s: State, n: nat) { if s.client.Creating? then s.client.threads == n else |s.ws| == n }

  lemma SizeKept(s: State, a: Action, n: nat)
    requires ResetFree(s) && SizeIs(s, n) && Enabled(s, a)
    requires !(a.ClientCall? && a.api.Reset?)
    ensures ResetFree(Next(s, a)) && SizeIs(Next(s, a), n)
  {
    if a.WorkerGo? { WorkerHasEffect(s, a.w, a); }
  }

  predicate ResetFree(s: State) {
    && !Resets(s.client)
    && match s.client
       case WaitEntry(why) => !why.ResetWait?
       case WaitAsleep(why) => !why.ResetWait?
       case WaitAwake(why) => !why.ResetWait?
       case Stopping(then_) => then_.Destroy?
       case StopNotify(then_) => then_.Destroy?
       case Joining(_, then_) => then_.Destroy?
       case _ => true
  }

  /** A pool keeps the number of workers it was made with until a reset(). */
  lemma {:induction false} WorkersAsRequested(threads: nat, states: seq<State>, acts: seq<Action>, k: nat)
    requires 1 <= threads <= UINT_MAX && Run(states, acts) && states[0] == InitState(threads) && k < |states|
    requires forall i :: 0 <= i < |acts| ==> !(acts[i].ClientCall? && acts[i].api.Reset?)
    ensures ResetFree(states[k]) && SizeIs(states[k], threads)
  {
    if k > 0 {
      WorkersAsRequested(threads, states, acts, k - 1);
      var s, a := states[k - 1], acts[k - 1];
      assert Enabled(s, a) && states[k - 1 + 1] == Next(s, a);
      SizeKept(s, a, threads);
    }
  }

  // ---------- progress without wait ----------

  lemma IdleWorkersSleep(s: State)
    requires Shape(s) && s.client == Idle && Stuck(s)
    ensures forall i :: 0 <= i < |s.ws| ==> s.ws[i] == Sleeping
  {
    forall i | 0 <= i < |s.ws|
      ensures s.ws[i] == Sleeping
    {
      if s.ws[i] != Sleeping {
        var a := WorkerCanGo(s, i);
        assert Quiet(a);
      }
    }
  }

  lemma IdleStuckIsDone(s: State)
    requires Inv(s) && s.client == Idle && !s.mute && Stuck(s)
    ensures Busy(s.ws) == 0 && (!s.sh.paused ==> s.sh.tasks == [])
  {
    IdleWorkersSleep(s);
    SumZero(s.ws, BusyBit);
    SumZero(s.ws, HeadedBit);
    assert s.ws[0] == Sleeping;
  }

  /** Tasks do not need wait() to be executed: in every run of a new pool with harmless resets, once no
      thread of the pool can step and the client is outside every call, no task is executing, and if the
      pool is unpaused each submission has finished or was purged, once. */
  lemma EveryTaskFinishes(threads: nat, states: seq<State>, acts: seq<Action>, id: nat)
    requires 1 <= threads <= UINT_MAX && Run(states, acts) && states[0] == InitState(threads)
    requires HarmlessResets(states, acts, 0)
    requires states[|acts|].client == Idle && Stuck(states[|acts|])
    ensures var s := states[|acts|];
      && Holding(s.ws, id) == 0
      && (!s.sh.paused ==> multiset(s.h.finished)[id] + multiset(s.h.purged)[id] == if id < |s.h.log| then 1 else 0)
  {
    var s := states[|acts|];
    InvOnRuns(threads, states, acts, |acts|);
    HarmlessAlong(states, acts, 0, |acts|);
    IdleStuckIsDone(s);
    NobodyHolds(s.ws, id);
    assert PlacedOnce(s, id);
  }

  // ---------- after the last wait ----------

  /** From the end of the wait() in the destructor or in reset() until new workers are created. */
  predicate Ending(c: ClientPc) { c.Stopping? || Reborn(c) }

  ghost predicate Ended(s: State) { Ending(s.client) ==> Done(s.sh) }

  lemma WorkerEnded(s: State, w: nat, wake: Option<nat>)
    requires Inv(s) && Ending(s.client) && Done(s.sh) && Enabled(s, WorkerGo(w, wake))
    ensures WorkerNext(s, w, wake).sh == s.sh
  {
    SumAtLeast(s.ws, w, BusyBit);
  }

  lemma EndedKept(s: State, a: Action)
    requires Inv(s) && Ended(s) && Enabled(s, a)
    ensures Ended(Next(s, a))
  {
    match a
    case ClientCall(_) =>
    case ClientGo(wake) => ClientEnded(s, wake);
    case ClientSpurious =>
    case WorkerGo(w, wake) =>
      WorkerHasEffect(s, w, a);
      if Ending(s.client) { WorkerEnded(s, w, wake); }
    case WorkerSubmit(w, _) => SumAtLeast(s.ws, w, BusyBit);
    case WorkerSpurious(_) =>
  }

  lemma ClientEnded(s: State, wake: Option<nat>)
    requires Ended(s) && Enabled(s, ClientGo(wake))
    ensures Ended(ClientNext(s, wake))
  {
  }

  lemma {:induction false} EndedAlong(threads: nat, states: seq<State>, acts: seq<Action>, k: nat)
    requires 1 <= threads <= UINT_MAX && Run(states, acts) && states[0] == InitState(threads) && k < |states|
    ensures Ended(states[k])
  {
    if k > 0 {
      EndedAlong(threads, states, acts, k - 1);
      InvOnRuns(threads, states, acts, k - 1);
      EndedTo(states, acts, k - 1);
    }
  }

  lemma EndedTo(states: seq<State>, acts: seq<Action>, k: nat)
    requires Run(states, acts) && k < |acts| && Inv(states[k]) && Ended(states[k])
    ensures Ended(states[k + 1])
  {
    var s, a := states[k], acts[k];
    assert Enabled(s, a) && states[k + 1] == Next(s, a);
    EndedKept(s, a);
  }

  /** While threads are stopped and joined, and after that, no task executes; and each submission has
      finished or was purged, once, unless the pool is paused and it is still queued. */
  lemma StoppedMeansDone(threads: nat, states: seq<State>, acts: seq<Action>, k: nat, id: nat)
    requires 1 <= threads <= UINT_MAX && Run(states, acts) && states[0] == InitState(threads) && k < |states|
    requires Ending(states[k].client)
    ensures var s := states[k];
      && s.sh.running == 0 && Holding(s.ws, id) == 0
      && (!s.sh.paused ==> s.sh.tasks == [])
      && multiset(s.h.finished)[id] + multiset(s.h.purged)[id] + multiset(s.sh.tasks)[id] == if id < |s.h.log| then 1 else 0
  {
    EndedAlong(threads, states, acts, k);
    InvOnRuns(threads, states, acts, k);
    NobodyHolds(states[k].ws, id);
    assert PlacedOnce(states[k], id);
  }

  // ---------- reachable states ----------

  /** Some run from a new pool ends here. */
  ghost predicate Reachable(s: State) {
    exists threads: nat, states: seq<State>, acts: seq<Action> :: ReachedBy(s, threads, states, acts)
  }

  ghost predicate ReachedBy(s: State, threads: nat, states: seq<State>, acts: seq<Action>) {
    1 <= threads <= UINT_MAX && Run(states, acts) && states[0] == InitState(threads) && states[|acts|] == s
  }

  lemma ReachableInit(threads: nat)
    requires 1 <= threads <= UINT_MAX
    ensures Reachable(InitState(threads))
  {
    assert ReachedBy(InitState(threads), threads, [InitState(threads)], []);
  }

  lemma ReachableNext(s: State, a: Action)
    requires Reachable(s) && Enabled(s, a)
    ensures Reachable(Next(s, a))
  {
    var threads, states, acts :| ReachedBy(s, threads, states, acts);
    Append(states, acts, a);
    assert ReachedBy(Next(s, a), threads, states + [Next(s, a)], acts + [a]);
  }

  lemma ReachableInv(s: State)
    requires Reachable(s)
    ensures Inv(s)
  {
    var threads, states, acts :| ReachedBy(s, threads, states, acts);
    InvOnRuns(threads, states, acts, |acts|);
  }

  lemma ReachableEnded(s: State)
    requires Reachable(s)
    ensures Ended(s)
  {
    var threads, states, acts :| ReachedBy(s, threads, states, acts);
    EndedAlong(threads, states, acts, |acts|);
  }

  /** The counter in a reachable state, as its workers see it. */
  lemma CounterAt(s: State, w: nat)
    requires Reachable(s) && w < |s.ws|
    ensures s.sh.running == Busy(s.ws) <= |s.ws| <= UINT_MAX
    ensures BusyBit(s.ws[w]) == 1 ==> s.sh.running > 0
  {
    ReachableInv(s);
    SumBound(s.ws, BusyBit, 1);
    SumAtLeast(s.ws, w, BusyBit);
  }

  // ---------- a pool that reset() strands ----------

  /** A pool of one worker, started and idle. */
  lemma Started() returns (s: State)
    ensures Reachable(s) && s.client == Idle && s.sh == Shared([], 1, false, false, true) && s.ws == [Init]
  {
    var s0 := InitState(1);
    ReachableInit(1);
    ReachableNext(s0, ClientGo(None));
    var s1 := Next(s0, ClientGo(None));
    assert s1.ws == [Unstarted];
    ReachableNext(s1, ClientGo(None));
    s := Next(s1, ClientGo(None));
  }

  /** The same pool after one detach_task, whose task is still queued. */
  lemma OneQueued() returns (s: State)
    ensures Reachable(s) && s.client == Idle && !s.sh.paused && s.sh.tasks == [|s.h.log| - 1]
  {
    var s2 := Started();
    ReachableNext(s2, ClientCall(Detach([Call(0)])));
    s := Push(Next(s2, ClientCall(Detach([Call(0)]))));
  }

  lemma Push(s3: State) returns (s: State)
    requires Reachable(s3) && s3.client == Pushing([Call(0)]) && s3.sh == Shared([], 1, false, false, true) && s3.ws == [Init]
    ensures Reachable(s) && s.client == Idle && !s.sh.paused && s.sh.tasks == [|s.h.log| - 1]
  {
    ReachableNext(s3, ClientGo(None));
    var s4 := Next(s3, ClientGo(None));
    assert s4.client == Notifying([]);
    ReachableNext(s4, ClientGo(None));
    s := Next(s4, ClientGo(None));
  }

  /** The promise of reset() fails for a new pool of one worker with one task. */
  lemma ResetFailsForOneTask() returns (s: State, states: seq<State>, acts: seq<Action>)
    ensures Reachable(s) && s.client == Idle && |s.sh.tasks| == 1
    ensures ResetRun(s, 1, states, acts) && IdleStranded(states[|acts|])
  {
    s := OneQueued();
    ReachableInv(s);
    states, acts := ResetCanStrand(s, 1);
  }
}
