/** Every call into the pool returns: a measure bounds each run between two calls, and such a run can
    only stop early in the one stranded situation that reset() can produce. */
module PoolProgress {
  import opened PoolModel
  import opened PoolInvariant
  import opened PoolSafety

  // ---------- the measure ----------

  /** How far a worker is from sleeping or exiting; taking a task is paid for by the queue. */
  function Rank(pc: WorkerPc): nat {
    match pc
    case Unstarted => 10
    case Init => 9
    case Exec(_) => 10
    case TaskNotify(_) => 13
    case Finished => 9
    case ReadWaiting => 8
    case ReadRunning => 7
    case ReadPaused => 6
    case ReadEmpty => 5
    case NotifyDone => 4
    case Recheck => 2
    case Sleeping => 0
    case Exited => 0
  }

  function RestoreRank(restore: Option<bool>): nat { if restore.Some? then 1 else 0 }

  function ThenRank(then_: Then): nat { if then_.Recreate? then 11 * then_.threads + 3 else 0 }

  /** What is left of destroy_threads, with `m` workers, and of what follows it. */
  function StopRank(m: nat, then_: Then): nat { 3 * m + 3 + ThenRank(then_) }

  function WaitRank(m: nat, why: Purpose): nat {
    match why
    case UserWait => 0
    case DtorWait => StopRank(m, Destroy)
    case ResetWait(n, was) => StopRank(m, Recreate(n, was))
  }

  function ClientRank(c: ClientPc, m: nat): nat {
    match c
    case Creating(n, restore) => 11 * n + 2 + RestoreRank(restore)
    case Spawning(k, restore) => (if k < m then m - k else 0) + 1 + RestoreRank(restore)
    case Restoring(_) => 1
    case Idle => 0
    case Pushing(rest) => 14 * |rest|
    case Notifying(rest) => 14 * |rest| + 3
    case Unpausing => 2 * m + 1
    case WaitEntry(why) => WaitRank(m, why) + 3
    case WaitAsleep(why) => WaitRank(m, why) + 1
    case WaitAwake(why) => WaitRank(m, why) + 2
    case Stopping(then_) => StopRank(m, then_)
    case StopNotify(then_) => StopRank(m, then_) - 1
    case Joining(k, then_) => (if k < m then m - k else 0) + 1 + ThenRank(then_)
    case Gone => 0
  }

  function Measure(s: State): nat {
    9 * |s.sh.tasks| + Sum(s.ws, Rank) + ClientRank(s.client, |s.ws|)
  }

  /** A step of the pool's own code, as opposed to a new call, a task's own submission or a spurious wakeup. */
  predicate Quiet(a: Action) { a.ClientGo? || a.WorkerGo? }

  lemma TakeRankStep(s: State, w: nat)
    requires w < |s.ws| && s.ws[w] == Recheck
    ensures var s' := TakeNext(s, w);
      && s'.client == s.client && 9 * |s'.sh.tasks| + Rank(s'.ws[w]) < 9 * |s.sh.tasks| + Rank(Recheck)
  {
  }

  lemma PlainRankStep(s: State, w: nat, wake: Option<nat>)
    requires Enabled(s, WorkerGo(w, wake)) && s.ws[w] != Recheck
    ensures var s' := WorkerNext(s, w, wake);
      && s'.sh.tasks == s.sh.tasks
      && s'.client == (if s.ws[w] == NotifyDone && s.client.WaitAsleep? then WaitAwake(s.client.why) else s.client)
      && Rank(s'.ws[w]) + (if s.ws[w].TaskNotify? then 2 else 0) + (if s.ws[w] == NotifyDone then 1 else 0) < Rank(s.ws[w])
  {
  }

  lemma WorkerRankStep(s: State, w: nat, wake: Option<nat>)
    requires Enabled(s, WorkerGo(w, wake))
    ensures var s' := WorkerNext(s, w, wake);
      9 * |s'.sh.tasks| + Rank(s'.ws[w]) + ClientRank(s'.client, |s.ws|) + (if s.ws[w].TaskNotify? && wake.Some? then 2 else 0)
        < 9 * |s.sh.tasks| + Rank(s.ws[w]) + ClientRank(s.client, |s.ws|)
  {
    if s.ws[w] == Recheck { TakeRankStep(s, w); } else { PlainRankStep(s, w, wake); }
  }

  lemma CreatingRankStep(s: State, wake: Option<nat>)
    requires s.client.Creating? && Enabled(s, ClientGo(wake))
    ensures Measure(ClientNext(s, wake)) < Measure(s)
  {
    ClientSum(s, wake, Rank);
  }

  lemma LifecycleRankStep(s: State, wake: Option<nat>)
    requires ClientShape(s) && Enabled(s, ClientGo(wake)) && Lifecycle(s.client) && !s.client.Creating?
    requires s.client.Spawning? ==> s.ws[s.client.next] == Unstarted
    ensures Measure(ClientNext(s, wake)) < Measure(s)
  {
    ClientSum(s, wake, Rank);
  }

  lemma CalmRankStep(s: State, wake: Option<nat>)
    requires Enabled(s, ClientGo(wake)) && !Lifecycle(s.client)
    ensures Measure(ClientNext(s, wake)) < Measure(s)
  {
    ClientSum(s, wake, Rank);
  }

  lemma ClientRankStep(s: State, wake: Option<nat>)
    requires Shape(s) && Enabled(s, ClientGo(wake))
    ensures Measure(ClientNext(s, wake)) < Measure(s)
  {
    if s.client.Creating? { CreatingRankStep(s, wake); }
    else if Lifecycle(s.client) { LifecycleRankStep(s, wake); }
    else { CalmRankStep(s, wake); }
  }

  lemma QuietDecreases(s: State, a: Action)
    requires Shape(s) && Enabled(s, a) && Quiet(a)
    ensures Measure(Next(s, a)) < Measure(s)
  {
    match a
    case ClientGo(wake) => ClientRankStep(s, wake);
    case WorkerGo(w, wake) =>
      WorkerSum(s, w, wake, Rank);
      WorkerRankStep(s, w, wake);
  }

  lemma DisturbanceBounded(s: State, a: Action)
    requires Enabled(s, a) && !Quiet(a) && !a.ClientCall?
    ensures Measure(Next(s, a)) <= Measure(s) + 12
  {
    match a
    case ClientSpurious =>
    case WorkerSubmit(w, _) => SumUpdate(s.ws, w, TaskNotify(s.ws[w].id), Rank);
    case WorkerSpurious(w) => SumUpdate(s.ws, w, Recheck, Rank);
  }

  function Disturbances(acts: seq<Action>): nat {
    if acts == [] then 0 else Disturbances(acts[..|acts| - 1]) + if Quiet(acts[|acts| - 1]) then 0 else 1
  }

  ghost predicate NoCalls(acts: seq<Action>) { forall i :: 0 <= i < |acts| ==> !acts[i].ClientCall? }

  lemma {:induction false} InvAlong(states: seq<State>, acts: seq<Action>, k: nat)
    requires Run(states, acts) && Inv(states[0]) && k < |states|
    ensures Inv(states[k])
  {
    if k > 0 {
      InvAlong(states, acts, k - 1);
      assert Enabled(states[k - 1], acts[k - 1]) && states[k - 1 + 1] == Next(states[k - 1], acts[k - 1]);
      InvKept(states[k - 1], acts[k - 1]);
    }
  }

  /** Between two calls a run has at most as many steps as the measure allows, plus 13 for each task
      submission or spurious wakeup along it. */
  lemma {:induction false} RunsAreBounded(states: seq<State>, acts: seq<Action>)
    requires Run(states, acts) && Inv(states[0]) && NoCalls(acts)
    ensures Measure(states[|acts|]) + |acts| <= Measure(states[0]) + 13 * Disturbances(acts)
  {
    if acts != [] {
      var n := |acts| - 1;
      RunsAreBounded(states[..n + 1], acts[..n]);
      InvAlong(states, acts, n);
      assert Enabled(states[n], acts[n]) && states[n + 1] == Next(states[n], acts[n]);
      if Quiet(acts[n]) { QuietDecreases(states[n], acts[n]); } else { DisturbanceBounded(states[n], acts[n]); }
    }
  }

  // ---------- no deadlock ----------

  predicate InCall(c: ClientPc) { c != Idle && c != Gone }

  predicate UserWaiting(c: ClientPc) { (c.WaitEntry? || c.WaitAsleep? || c.WaitAwake?) && c.why == UserWait }

  /** Nothing the pool's own code could do next. */
  ghost predicate Stuck(s: State) { forall a :: Quiet(a) ==> !Enabled(s, a) }

  /** The client waits for tasks that every worker is asleep beside. */
  ghost predicate Stranded(s: State) {
    && s.client.WaitAsleep? && !s.sh.paused && s.sh.tasks != []
    && (forall i :: 0 <= i < |s.ws| ==> s.ws[i] == Sleeping)
  }

  lemma SomeWake(ws: seq<WorkerPc>) returns (wake: Option<nat>)
    ensures WakeOk(ws, wake)
  {
    if HasSleeper(ws) {
      var i :| 0 <= i < |ws| && ws[i] == Sleeping;
      wake := Some(i);
    } else {
      wake := None;
    }
  }

  /** A worker that is neither unstarted, asleep nor gone has a step of its own. */
  lemma WorkerCanGo(s: State, w: nat) returns (a: Action)
    requires w < |s.ws| && s.ws[w] != Unstarted && s.ws[w] != Sleeping && s.ws[w] != Exited
    ensures a.WorkerGo? && a.w == w && Enabled(s, a)
  {
    var wake := SomeWake(s.ws);
    a := WorkerGo(w, wake);
  }

  lemma ClientCanGo(s: State) returns (a: Action)
    requires Shape(s) && InCall(s.client) && !s.client.WaitAsleep?
    requires s.client.Joining? ==> s.ws[s.client.next] == Exited
    ensures a.ClientGo? && Enabled(s, a)
  {
    var wake := SomeWake(s.ws);
    a := ClientGo(wake);
  }

  lemma AllAsleep(s: State)
    requires Shape(s) && Stuck(s) && InCall(s.client)
    ensures s.client.WaitAsleep? && forall i :: 0 <= i < |s.ws| ==> s.ws[i] == Sleeping
  {
    if !s.client.WaitAsleep? {
      if s.client.Joining? && s.ws[s.client.next] != Exited {
        var a := WorkerCanGo(s, s.client.next);
        assert Quiet(a);
      } else {
        var a := ClientCanGo(s);
        assert Quiet(a);
      }
    }
    forall i | 0 <= i < |s.ws|
      ensures s.ws[i] == Sleeping
    {
      if s.ws[i] != Sleeping {
        var a := WorkerCanGo(s, i);
        assert Quiet(a);
      }
    }
  }

  /** Inside a call the pool's code can always go on, except exactly when it is stranded; and that
      takes a reset() that restored `paused` beside sleeping workers and queued tasks. */
  lemma StuckIffStranded(s: State)
    requires Inv(s) && InCall(s.client)
    ensures Stuck(s) <==> Stranded(s)
    ensures Stranded(s) ==> s.mute
  {
    if Stuck(s) {
      AllAsleep(s);
      SumZero(s.ws, BusyBit);
      assert !SomeoneWillSignal(s);
    }
    if Stranded(s) {
      SumZero(s.ws, HeadedBit);
      assert s.ws[0] == Sleeping;
    }
  }

  /** A run of the pool's own steps that cannot be continued has left the call, or is stranded. */
  lemma MaximalRunReturns(states: seq<State>, acts: seq<Action>)
    requires Run(states, acts) && Inv(states[0]) && Stuck(states[|acts|])
    ensures !InCall(states[|acts|].client) || (Stranded(states[|acts|]) && states[|acts|].mute)
  {
    InvAlong(states, acts, |acts|);
    if InCall(states[|acts|].client) { StuckIffStranded(states[|acts|]); }
  }
}
