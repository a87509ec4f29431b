/** What every step of the pool keeps, for any number of workers and any client. */
module PoolInvariant {
  import opened PoolModel

  // ---------- arithmetic of the worker counts ----------

  lemma {:induction false} SumUpdate(ws: seq<WorkerPc>, i: nat, pc: WorkerPc, f: WorkerPc -> nat)
    requires i < |ws|
    ensures Sum(ws[i := pc], f) + f(ws[i]) == Sum(ws, f) + f(pc)
  {
    if i > 0 {
      assert ws[i := pc][1..] == ws[1..][i - 1 := pc];
      SumUpdate(ws[1..], i - 1, pc, f);
    } else {
      assert ws[i := pc][1..] == ws[1..];
    }
  }

  lemma OneMore(d: int, n: nat)
    ensures d * (n + 1) == d * n + d
  {
  }

  /** A notify_all adds what it adds to one sleeper, at most once per worker. */
  lemma {:induction false} SumWakeAll(ws: seq<WorkerPc>, f: WorkerPc -> nat)
    requires f(Sleeping) <= f(Recheck)
    ensures Sum(ws, f) <= Sum(WakeAll(ws), f) <= Sum(ws, f) + (f(Recheck) - f(Sleeping)) * |ws|
  {
    if ws != [] {
      SumWakeAll(ws[1..], f);
      assert WakeAll(ws)[1..] == WakeAll(ws[1..]);
      OneMore(f(Recheck) - f(Sleeping), |ws[1..]|);
    }
  }

  lemma {:induction false} SumFresh(n: nat, f: WorkerPc -> nat)
    ensures Sum(Fresh(n), f) == n * f(Unstarted)
  {
    if n > 0 {
      SumFresh(n - 1, f);
      assert Fresh(n)[1..] == Fresh(n - 1);
      assert n * f(Unstarted) == (n - 1) * f(Unstarted) + f(Unstarted);
    }
  }

  lemma {:induction false} SumBound(ws: seq<WorkerPc>, f: WorkerPc -> nat, c: nat)
    requires forall pc :: f(pc) <= c
    ensures Sum(ws, f) <= c * |ws|
  {
    if ws != [] {
      SumBound(ws[1..], f, c);
      assert c * |ws| == c * |ws[1..]| + c;
    }
  }

  lemma {:induction false} SumAtLeast(ws: seq<WorkerPc>, i: nat, f: WorkerPc -> nat)
    requires i < |ws|
    ensures f(ws[i]) <= Sum(ws, f)
  {
    if i > 0 { SumAtLeast(ws[1..], i - 1, f); }
  }

  lemma {:induction false} SumZero(ws: seq<WorkerPc>, f: WorkerPc -> nat)
    requires forall i :: 0 <= i < |ws| ==> f(ws[i]) == 0
    ensures Sum(ws, f) == 0
  {
    if ws != [] {
      assert forall i :: 0 <= i < |ws[1..]| ==> ws[1..][i] == ws[i + 1];
      SumZero(ws[1..], f);
    }
  }

  /** How one worker's step changes a sum to which sleepers contribute nothing. */
  lemma WorkerSum(s: State, w: nat, wake: Option<nat>, f: WorkerPc -> nat)
    requires Enabled(s, WorkerGo(w, wake)) && f(Sleeping) == 0
    ensures |WorkerNext(s, w, wake).ws| == |s.ws|
    ensures Sum(WorkerNext(s, w, wake).ws, f) + f(s.ws[w])
         == Sum(s.ws, f) + f(WorkerNext(s, w, wake).ws[w]) + (if s.ws[w].TaskNotify? && wake.Some? then f(Recheck) else 0)
  {
    var pc := WorkerNext(s, w, wake).ws[w];
    if s.ws[w].TaskNotify? && wake.Some? {
      SumUpdate(s.ws, wake.value, Recheck, f);
      SumUpdate(s.ws[wake.value := Recheck], w, pc, f);
    } else {
      SumUpdate(s.ws, w, pc, f);
    }
  }

  /** How one step of the client changes such a sum: a notify adds at most Recheck per worker. */
  lemma ClientSum(s: State, wake: Option<nat>, f: WorkerPc -> nat)
    requires Enabled(s, ClientGo(wake)) && f(Sleeping) == 0
    ensures var t := Sum(ClientNext(s, wake).ws, f);
      match s.client
      case Creating(n, _) => t == n * f(Unstarted)
      case Spawning(k, _) => t + f(s.ws[k]) == Sum(s.ws, f) + f(Init)
      case Notifying(_) => t == Sum(s.ws, f) + if wake.Some? then f(Recheck) else 0
      case Unpausing => Sum(s.ws, f) <= t <= Sum(s.ws, f) + f(Recheck) * |s.ws|
      case StopNotify(_) => Sum(s.ws, f) <= t <= Sum(s.ws, f) + f(Recheck) * |s.ws|
      case _ => t == Sum(s.ws, f)
  {
    match s.client {
      case Creating(n, _) => SumFresh(n, f);
      case Spawning(k, _) => SumUpdate(s.ws, k, Init, f);
      case Notifying(_) => if wake.Some? { SumUpdate(s.ws, wake.value, Recheck, f); }
      case Unpausing => SumWakeAll(s.ws, f);
      case StopNotify(_) => SumWakeAll(s.ws, f);
      case _ =>
    }
  }

  // ---------- control structure ----------

  predicate Reborn(c: ClientPc) { c.Creating? || c.StopNotify? || c.Joining? || c.Gone? }

  /** Who can be where: `workersRunning` follows the client, workers exist once created, they exit
      only after they were stopped, and none sleeps once the stop has been broadcast. */
  ghost predicate Shape(s: State) { ClientShape(s) && WorkerShape(s) }

  ghost predicate ClientShape(s: State) {
    && (s.sh.workersRunning <==> !Reborn(s.client))
    && (s.sh.waiting <==> s.client.WaitAsleep? || s.client.WaitAwake?)
    && (s.client.Creating? ==> 1 <= s.client.threads <= UINT_MAX)
    && (!s.client.Creating? ==> 1 <= |s.ws|)
    && |s.ws| <= UINT_MAX
    && (s.client.Spawning? ==> s.client.next < |s.ws|)
    && (s.client.Pushing? ==> s.client.rest != [])
    && (s.client.Joining? ==> s.client.next < |s.ws|)
    && (s.client.WaitEntry? || s.client.WaitAsleep? || s.client.WaitAwake? ==> PurposeOk(s.client.why))
    && (s.client.Stopping? || s.client.StopNotify? || s.client.Joining? ==> ThenOk(s.client.then_))
  }

  ghost predicate WorkerShape(s: State) {
    && (forall i :: 0 <= i < |s.ws| ==> (s.ws[i] == Unstarted <==> s.client.Spawning? && s.client.next <= i))
    && (forall i :: 0 <= i < |s.ws| && s.ws[i] == Exited ==> !s.sh.workersRunning)
    && (s.client.Joining? ==> forall i :: 0 <= i < |s.ws| ==> s.ws[i] != Sleeping && (i < s.client.next ==> s.ws[i] == Exited))
    && (s.client.Creating? || s.client.Gone? ==> forall i :: 0 <= i < |s.ws| ==> s.ws[i] == Exited)
  }

  predicate PurposeOk(why: Purpose) { why.ResetWait? ==> 1 <= why.threads <= UINT_MAX }

  predicate ThenOk(then_: Then) { then_.Recreate? ==> 1 <= then_.threads <= UINT_MAX }

  /** `tasks_running` counts the workers that are initialising, executing, or about to decrement. */
  ghost predicate Counter(s: State) { s.sh.running == Busy(s.ws) }

  // ---------- wakeups ----------

  /** This worker has decremented and not yet notified, and all its remaining reads will succeed. */
  predicate WillSignal(pc: WorkerPc, sh: Shared) {
    || pc == ReadWaiting || pc == ReadRunning || pc == ReadPaused || pc == NotifyDone
    || (pc == ReadEmpty && sh.tasks == [])
  }

  ghost predicate SomeoneWillSignal(s: State) { exists i :: 0 <= i < |s.ws| && WillSignal(s.ws[i], s.sh) }

  ghost predicate Wakeup(s: State) { s.client.WaitAsleep? && Done(s.sh) ==> SomeoneWillSignal(s) }

  function PendingNotify(s: State): nat { if s.client.Notifying? then 1 else 0 }

  /** No sleeper beside more queued tasks than workers and notifications heading for them. */
  ghost predicate Conserved(s: State) {
    s.sh.workersRunning && !s.sh.paused && !s.client.Unpausing? && HasSleeper(s.ws)
    ==> |s.sh.tasks| <= Headed(s.ws) + PendingNotify(s)
  }

  ghost predicate Work(s: State) { !s.mute ==> Conserved(s) }

  // ---------- tasks ----------

  /** The ids below `n` that were not purged, in order. */
  function Remaining(n: nat, purged: seq<nat>): seq<nat> {
    if n == 0 then [] else Remaining(n - 1, purged) + if n - 1 in purged then [] else [n - 1]
  }

  /** First in, first out: dequeued followed by queued is submission order without the purged. */
  ghost predicate Fifo(s: State) { s.h.started + s.sh.tasks == Remaining(|s.h.log|, s.h.purged) }

  /** Every submission is queued, executing, finished or purged, exactly once. */
  ghost predicate Places(s: State) { forall id: nat :: PlacedOnce(s, id) }

  predicate PlacedOnce(s: State, id: nat) {
    && multiset(s.h.started)[id] + multiset(s.sh.tasks)[id] + multiset(s.h.purged)[id] == (if id < |s.h.log| then 1 else 0)
    && multiset(s.h.started)[id] == multiset(s.h.finished)[id] + Holding(s.ws, id)
  }

  /** The ids a detach call got carry the jobs it was given, in order. */
  ghost predicate Tied(call: DetachCall, log: seq<Job>) {
    && |call.batch| <= |call.plan|
    && (forall k :: 0 <= k < |call.batch| ==> call.batch[k] < |log| && log[call.batch[k]] == call.plan[k])
    && (forall j, k :: 0 <= j < k < |call.batch| ==> call.batch[j] < call.batch[k])
  }

  /** A detach call that has submitted all its jobs. */
  ghost predicate Submitted(call: DetachCall, log: seq<Job>) {
    Tied(call, log) && |call.batch| == |call.plan|
  }

  /** Every earlier detach call is complete, and the latest one has still to submit what the client holds. */
  ghost predicate Batch(s: State) {
    && Tied(s.h.call, s.h.log)
    && (s.client.Pushing? || s.client.Notifying? ==> s.h.call.plan[|s.h.call.batch|..] == s.client.rest)
    && (!s.client.Pushing? && !s.client.Notifying? ==> |s.h.call.batch| == |s.h.call.plan|)
    && (forall i :: 0 <= i < |s.h.past| ==> Submitted(s.h.past[i], s.h.log))
  }

  ghost predicate Inv(s: State) {
    Shape(s) && Counter(s) && Wakeup(s) && Work(s) && Fifo(s) && Places(s) && Batch(s)
  }

  // ---------- every step keeps each part ----------

  /** What a step of worker `w` can do to the control structure. */
  ghost predicate WorkerEffect(s: State, w: nat, s': State)
    requires w < |s.ws|
  {
    && |s'.ws| == |s.ws|
    && (forall i :: 0 <= i < |s.ws| && i != w ==> s'.ws[i] == s.ws[i] || (s.ws[i] == Sleeping && s'.ws[i] == Recheck))
    && s'.ws[w] != Unstarted
    && (s'.ws[w] == Exited ==> !s.sh.workersRunning)
    && (s'.ws[w] == Sleeping ==> s.sh.workersRunning)
    && s.ws[w] != Unstarted && s.ws[w] != Exited
    && s'.sh.workersRunning == s.sh.workersRunning && s'.sh.waiting == s.sh.waiting
    && (s'.client == s.client || (s.client.WaitAsleep? && s'.client == WaitAwake(s.client.why)))
  }

  lemma WorkerHasEffect(s: State, w: nat, a: Action)
    requires Enabled(s, a)
    requires a.WorkerGo? || a.WorkerSubmit? || a.WorkerSpurious?
    requires w == a.w
    ensures w < |s.ws| && WorkerEffect(s, w, Next(s, a))
  {
  }

  lemma WorkerShapeKept(s: State, w: nat, s': State)
    requires Shape(s) && w < |s.ws| && WorkerEffect(s, w, s')
    ensures Shape(s')
  {
  }

  lemma CallShapeKept(s: State, api: Api)
    requires Shape(s) && Enabled(s, ClientCall(api))
    ensures Shape(CallNext(s, api))
  {
  }

  lemma GoClientShapeKept(s: State, wake: Option<nat>)
    requires Shape(s) && Enabled(s, ClientGo(wake))
    ensures ClientShape(ClientNext(s, wake))
  {
  }

  predicate Lifecycle(c: ClientPc) { c.Creating? || c.Spawning? || c.StopNotify? || c.Joining? }

  lemma LifecycleShapeKept(s: State, wake: Option<nat>)
    requires Shape(s) && Lifecycle(s.client) && Enabled(s, ClientGo(wake))
    ensures WorkerShape(ClientNext(s, wake))
  {
    if s.client.Spawning? { SpawningShapeKept(s, wake); }
  }

  lemma SpawningShapeKept(s: State, wake: Option<nat>)
    requires WorkerShape(s) && s.client.Spawning? && s.sh.workersRunning && Enabled(s, ClientGo(wake))
    ensures WorkerShape(ClientNext(s, wake))
  {
  }

  lemma CalmShapeKept(s: State, wake: Option<nat>)
    requires WorkerShape(s) && !Lifecycle(s.client) && Enabled(s, ClientGo(wake))
    ensures WorkerShape(ClientNext(s, wake))
  {
  }

  lemma ShapeKept(s: State, a: Action)
    requires Shape(s) && Enabled(s, a)
    ensures Shape(Next(s, a))
  {
    match a
    case ClientCall(api) => CallShapeKept(s, api);
    case ClientGo(wake) => GoClientShapeKept(s, wake); if Lifecycle(s.client) { LifecycleShapeKept(s, wake); } else { CalmShapeKept(s, wake); }
    case ClientSpurious =>
    case _ =>
      WorkerHasEffect(s, a.w, a);
      WorkerShapeKept(s, a.w, Next(s, a));
  }

  lemma ClientCounterKept(s: State, wake: Option<nat>)
    requires Counter(s) && Enabled(s, ClientGo(wake))
    requires s.client.Spawning? ==> s.ws[s.client.next] == Unstarted
    ensures Counter(ClientNext(s, wake))
  {
    if s.client.Creating? {
      CreatingCounts(s, wake);
    } else {
      ClientRunning(s, wake);
      OthersCount(s, wake);
    }
  }

  lemma CreatingCounts(s: State, wake: Option<nat>)
    requires s.client.Creating? && Enabled(s, ClientGo(wake))
    ensures Counter(ClientNext(s, wake))
  {
    SumFresh(s.client.threads, BusyBit);
  }

  /** Apart from creating them, the client does not change how many workers are busy. */
  lemma OthersCount(s: State, wake: Option<nat>)
    requires !s.client.Creating? && Enabled(s, ClientGo(wake))
    requires s.client.Spawning? ==> s.ws[s.client.next] == Unstarted
    ensures Busy(ClientNext(s, wake).ws) == Busy(s.ws)
  {
    ClientSum(s, wake, BusyBit);
  }

  lemma ClientRunning(s: State, wake: Option<nat>)
    requires Enabled(s, ClientGo(wake))
    ensures ClientNext(s, wake).sh.running == if s.client.Creating? then s.client.threads else s.sh.running
  {
  }

  lemma WorkerRunning(s: State, w: nat, wake: Option<nat>)
    requires Enabled(s, WorkerGo(w, wake))
    requires BusyBit(s.ws[w]) <= s.sh.running <= UINT_MAX
    ensures WorkerNext(s, w, wake).sh.running + BusyBit(s.ws[w]) == s.sh.running + BusyBit(WorkerNext(s, w, wake).ws[w])
  {
  }

  lemma WorkerCounterKept(s: State, w: nat, wake: Option<nat>)
    requires Shape(s) && Counter(s) && Enabled(s, WorkerGo(w, wake))
    ensures Counter(WorkerNext(s, w, wake))
  {
    SumBound(s.ws, BusyBit, 1);
    SumAtLeast(s.ws, w, BusyBit);
    WorkerSum(s, w, wake, BusyBit);
    WorkerRunning(s, w, wake);
  }

  lemma CounterKept(s: State, a: Action)
    requires Shape(s) && Counter(s) && Enabled(s, a)
    ensures Counter(Next(s, a))
  {
    match a
    case ClientCall(_) =>
    case ClientGo(wake) => ClientCounterKept(s, wake);
    case ClientSpurious =>
    case WorkerGo(w, wake) => WorkerCounterKept(s, w, wake);
    case WorkerSubmit(w, _) => SumUpdate(s.ws, w, TaskNotify(s.ws[w].id), BusyBit);
    case WorkerSpurious(w) => SumUpdate(s.ws, w, Recheck, BusyBit);
  }

  /** The chain of reads: once its predicate holds under a sleeping client, whoever has started the
      reads of line 917 cannot fail any of them, and its notify wakes the client. */
  lemma ReadsSucceed(s: State, w: nat, wake: Option<nat>)
    requires Shape(s) && s.client.WaitAsleep? && Done(s.sh)
    requires Enabled(s, WorkerGo(w, wake)) && WillSignal(s.ws[w], s.sh)
    ensures var s' := WorkerNext(s, w, wake);
      if s.ws[w] == NotifyDone then s'.client == WaitAwake(s.client.why)
      else s'.sh == s.sh && s'.client == s.client && WillSignal(s'.ws[w], s'.sh)
  {
  }

  lemma WorkerWakeupKept(s: State, w: nat, wake: Option<nat>)
    requires Shape(s) && Counter(s) && Wakeup(s) && Enabled(s, WorkerGo(w, wake))
    ensures Wakeup(WorkerNext(s, w, wake))
  {
    var s' := WorkerNext(s, w, wake);
    if s'.client.WaitAsleep? && Done(s'.sh) {
      WorkerHasEffect(s, w, WorkerGo(w, wake));
      SumAtLeast(s.ws, w, BusyBit);
      SumBound(s.ws, BusyBit, 1);
      if Done(s.sh) {
        var i :| 0 <= i < |s.ws| && WillSignal(s.ws[i], s.sh);
        if i == w { ReadsSucceed(s, w, wake); } else { OthersStill(s, w, wake, i); }
        assert WillSignal(s'.ws[i], s'.sh);
      } else {
        BecomesDone(s, w, wake);
        assert WillSignal(s'.ws[w], s'.sh);
      }
    }
  }

  lemma OthersStill(s: State, w: nat, wake: Option<nat>, i: nat)
    requires Shape(s) && Done(s.sh) && s.client.WaitAsleep? && Enabled(s, WorkerGo(w, wake))
    requires BusyBit(s.ws[w]) == 0 && i < |s.ws| && i != w && WillSignal(s.ws[i], s.sh)
    ensures WorkerNext(s, w, wake).ws[i] == s.ws[i] && WorkerNext(s, w, wake).sh == s.sh
  {
  }

  lemma BecomesDone(s: State, w: nat, wake: Option<nat>)
    requires Enabled(s, WorkerGo(w, wake)) && !Done(s.sh) && Done(WorkerNext(s, w, wake).sh)
    requires s.sh.running <= UINT_MAX
    ensures WorkerNext(s, w, wake).ws[w] == ReadWaiting
  {
  }

  lemma WakeupKept(s: State, a: Action)
    requires Shape(s) && Counter(s) && Wakeup(s) && Enabled(s, a)
    ensures Wakeup(Next(s, a))
  {
    match a
    case ClientCall(_) =>
    case ClientGo(wake) => ClientWakeupKept(s, wake);
    case ClientSpurious =>
    case WorkerGo(w, wake) => WorkerWakeupKept(s, w, wake);
    case WorkerSubmit(w, _) => SumAtLeast(s.ws, w, BusyBit);
    case WorkerSpurious(w) =>
      if s.client.WaitAsleep? && Done(s.sh) {
        var i :| 0 <= i < |s.ws| && WillSignal(s.ws[i], s.sh);
        assert Next(s, a).ws[i] == s.ws[i];
      }
  }

  lemma ClientWakeupKept(s: State, wake: Option<nat>)
    requires Enabled(s, ClientGo(wake))
    ensures Wakeup(ClientNext(s, wake))
  {
  }

  // ---------- work conservation ----------

  lemma WorkerWorkKept(s: State, w: nat, wake: Option<nat>)
    requires Shape(s) && Work(s) && Enabled(s, WorkerGo(w, wake))
    ensures Work(WorkerNext(s, w, wake))
  {
    var s' := WorkerNext(s, w, wake);
    if !s'.mute && s'.sh.workersRunning && !s'.sh.paused && !s'.client.Unpausing? && HasSleeper(s'.ws) {
      WorkerSum(s, w, wake, HeadedBit);
      WorkerQueue(s, w, wake);
      if s'.ws[w] != Sleeping {
        WorkerHasEffect(s, w, WorkerGo(w, wake));
        var i :| 0 <= i < |s'.ws| && s'.ws[i] == Sleeping;
        assert s.ws[i] == Sleeping;
      }
    }
  }

  /** A worker's step never gives up a headed worker without taking a task or waking a sleeper. */
  lemma WorkerQueue(s: State, w: nat, wake: Option<nat>)
    requires Enabled(s, WorkerGo(w, wake))
    ensures var s' := WorkerNext(s, w, wake);
      && s'.mute == s.mute && s'.sh.paused == s.sh.paused && s'.sh.workersRunning == s.sh.workersRunning
      && (s'.client.Unpausing? == s.client.Unpausing?) && PendingNotify(s') == PendingNotify(s)
      && (s'.ws[w] == Sleeping ==> s.sh.workersRunning && (s.sh.paused || s'.sh.tasks == []))
      && (s'.ws[w] != Sleeping && s.sh.workersRunning && HasSleeper(s.ws) ==>
        |s'.sh.tasks| + HeadedBit(s.ws[w])
          <= |s.sh.tasks| + HeadedBit(s'.ws[w]) + if s.ws[w].TaskNotify? && wake.Some? then 1 else 0)
  {
  }

  lemma ClientWorkKept(s: State, wake: Option<nat>)
    requires Shape(s) && Work(s) && Enabled(s, ClientGo(wake))
    ensures Work(ClientNext(s, wake))
  {
    ClientSum(s, wake, HeadedBit);
    if !s.client.Restoring? { ClientQueue(s, wake); }
  }

  lemma ClientQueue(s: State, wake: Option<nat>)
    requires Shape(s) && Enabled(s, ClientGo(wake)) && !s.client.Restoring?
    ensures var s' := ClientNext(s, wake);
      && (s'.mute == if s.client.Unpausing? then false else s.mute)
      && s'.sh.paused == s.sh.paused && !s'.client.Unpausing?
      && (s'.sh.workersRunning && HasSleeper(s'.ws) ==> s.sh.workersRunning && HasSleeper(s.ws) && !s.client.Unpausing?)
      && |s'.sh.tasks| + PendingNotify(s) <= |s.sh.tasks| + PendingNotify(s') + (if s.client.Notifying? then 1 else 0)
      && (s.client.Notifying? && HasSleeper(s'.ws) ==> wake.Some? && s'.sh.tasks == s.sh.tasks)
  {
    var s' := ClientNext(s, wake);
    if HasSleeper(s'.ws) {
      var i :| 0 <= i < |s'.ws| && s'.ws[i] == Sleeping;
      assert s'.sh.workersRunning ==> s.ws[i] == Sleeping;
    }
  }

  lemma WorkKept(s: State, a: Action)
    requires Shape(s) && Work(s) && Enabled(s, a)
    ensures Work(Next(s, a))
  {
    match a
    case ClientCall(_) =>
    case ClientGo(wake) => ClientWorkKept(s, wake);
    case ClientSpurious =>
    case WorkerGo(w, wake) => WorkerWorkKept(s, w, wake);
    case WorkerSubmit(w, _) =>
      SumUpdate(s.ws, w, TaskNotify(s.ws[w].id), HeadedBit);
      SleeperBefore(s.ws, w, TaskNotify(s.ws[w].id));
    case WorkerSpurious(w) =>
      SumUpdate(s.ws, w, Recheck, HeadedBit);
      SleeperBefore(s.ws, w, Recheck);
  }

  lemma SleeperBefore(ws: seq<WorkerPc>, w: nat, pc: WorkerPc)
    requires w < |ws| && pc != Sleeping
    ensures HasSleeper(ws[w := pc]) ==> HasSleeper(ws)
  {
    if HasSleeper(ws[w := pc]) {
      var i :| 0 <= i < |ws| && ws[w := pc][i] == Sleeping;
      assert ws[i] == Sleeping;
    }
  }
}
