/** reset() promises that tasks queued before it will be executed by the new threads.  It restores
    `paused` without a notify, so the new threads may already be asleep: this module says exactly when
    that strands tasks, and that a wait() afterwards then never returns. */
module PoolReset {
  import opened PoolModel
  import opened PoolInvariant
  import opened PoolSafety
  import opened PoolProgress

  /** Inside reset(), called when `paused` was `was`. */
  predicate InReset(c: ClientPc, was: bool) {
    match c
    case WaitEntry(why) => why.ResetWait? && why.was == was
    case WaitAsleep(why) => why.ResetWait? && why.was == was
    case WaitAwake(why) => why.ResetWait? && why.was == was
    case Stopping(then_) => then_.Recreate? && then_.was == was
    case StopNotify(then_) => then_.Recreate? && then_.was == was
    case Joining(_, then_) => then_.Recreate? && then_.was == was
    case Creating(_, restore) => restore == Some(was)
    case Spawning(_, restore) => restore == Some(was)
    case Restoring(w) => w == was
    case _ => false
  }

  predicate InTask(pc: WorkerPc) { pc.Exec? || pc.TaskNotify? }

  ghost predicate SomeoneExecutes(ws: seq<WorkerPc>) { exists w :: 0 <= w < |ws| && InTask(ws[w]) }

  // ---------- when it is safe ----------

  /** Nothing is queued and no task is executing that could submit. */
  ghost predicate Drained(s: State) { s.sh.tasks == [] && !SomeoneExecutes(s.ws) }

  predicate Resets(c: ClientPc) { InReset(c, true) || InReset(c, false) }

  /** A reset() under way began paused or drained, and none that is over has left sleepers beside queued tasks. */
  ghost predicate Harmless(s: State) {
    (InReset(s.client, false) ==> Drained(s)) && (!Resets(s.client) ==> !s.mute)
  }

  /** A reset() of an unpaused pool with a task queued or executing. */
  ghost predicate HarmfulReset(s: State, a: Action) {
    a.ClientCall? && a.api.Reset? && !s.sh.paused && !Drained(s)
  }

  /** No reset() from step `from` on is a harmful one. */
  ghost predicate HarmlessResets(states: seq<State>, acts: seq<Action>, from: nat)
    requires |states| == |acts| + 1
  {
    forall i :: from <= i < |acts| ==> !HarmfulReset(states[i], acts[i])
  }

  lemma WorkerDrained(s: State, w: nat, wake: Option<nat>)
    requires Drained(s) && Enabled(s, WorkerGo(w, wake))
    ensures Drained(WorkerNext(s, w, wake))
  {
    WorkerTasks(s, w, wake);
    WorkerHasEffect(s, w, WorkerGo(w, wake));
    assert !InTask(s.ws[w]) && !InTask(WorkerNext(s, w, wake).ws[w]);
    forall i | 0 <= i < |s.ws|
      ensures !InTask(WorkerNext(s, w, wake).ws[i])
    {
      assert !InTask(s.ws[i]);
    }
  }

  lemma ClientDrained(s: State, was: bool, wake: Option<nat>)
    requires InReset(s.client, was) && Drained(s) && Enabled(s, ClientGo(wake))
    ensures Drained(ClientNext(s, wake))
  {
    forall i | 0 <= i < |ClientNext(s, wake).ws|
      ensures !InTask(ClientNext(s, wake).ws[i])
    {
      assert i < |s.ws| ==> !InTask(s.ws[i]);
    }
  }

  lemma InResetKept(s: State, a: Action, was: bool)
    requires InReset(s.client, was) && Enabled(s, a) && !(s.client.Restoring? && a.ClientGo?)
    ensures InReset(Next(s, a).client, was)
  {
    if a.WorkerGo? { WorkerHasEffect(s, a.w, a); }
  }

  lemma CallHarmless(s: State, api: Api)
    requires Enabled(s, ClientCall(api)) && !HarmfulReset(s, ClientCall(api)) && (!api.Reset? ==> Harmless(s))
    ensures Harmless(CallNext(s, api)) && CallNext(s, api).mute == s.mute
  {
    if Drained(s) {
      forall w | 0 <= w < |s.ws|
        ensures !InTask(CallNext(s, api).ws[w])
      {
        assert !InTask(s.ws[w]);
      }
    }
  }

  lemma HarmlessKept(s: State, a: Action)
    requires Harmless(s) && Enabled(s, a) && !HarmfulReset(s, a)
    ensures Harmless(Next(s, a)) && (!s.mute ==> !Next(s, a).mute)
  {
    if a.ClientCall? {
      CallHarmless(s, a.api);
    } else {
      StepHarmless(s, a);
    }
  }

  lemma StepHarmless(s: State, a: Action)
    requires Harmless(s) && Enabled(s, a) && !a.ClientCall?
    ensures Harmless(Next(s, a)) && (!s.mute ==> !Next(s, a).mute)
  {
    if a.WorkerGo? { WorkerHasEffect(s, a.w, a); WorkerQueue(s, a.w, a.wake); }
    if InReset(s.client, false) { DrainedKept(s, a, false); }
    if Resets(s.client) && !(s.client.Restoring? && a.ClientGo?) {
      InResetKept(s, a, InReset(s.client, true));
    }
  }

  lemma DrainedKept(s: State, a: Action, was: bool)
    requires InReset(s.client, was) && Drained(s) && Enabled(s, a) && !a.ClientCall?
    ensures Drained(Next(s, a))
  {
    match a
    case ClientGo(wake) => ClientDrained(s, was, wake);
    case ClientSpurious =>
    case WorkerGo(w, wake) => WorkerDrained(s, w, wake);
    case WorkerSubmit(w, _) => assert InTask(s.ws[w]);
    case WorkerSpurious(w) =>
      forall i | 0 <= i < |s.ws|
        ensures !InTask(Next(s, a).ws[i])
      {
        assert !InTask(s.ws[i]);
      }
  }

  /** A run that starts with reset() and makes no other call. */
  ghost predicate ResetRun(s: State, threads: nat, states: seq<State>, acts: seq<Action>) {
    && Run(states, acts) && states[0] == s
    && |acts| > 0 && acts[0] == ClientCall(Reset(threads)) && NoCalls(acts[1..])
  }

  /** Runs in which every reset() is made paused or drained stay harmless. */
  lemma {:induction false} HarmlessAlong(states: seq<State>, acts: seq<Action>, from: nat, k: nat)
    requires Run(states, acts) && from <= k < |states| && HarmlessResets(states, acts, from) && Harmless(states[from])
    ensures Harmless(states[k]) && (!states[from].mute ==> !states[k].mute)
  {
    if k > from {
      HarmlessAlong(states, acts, from, k - 1);
      HarmlessTo(states, acts, k - 1);
    }
  }

  lemma HarmlessTo(states: seq<State>, acts: seq<Action>, k: nat)
    requires Run(states, acts) && k < |acts| && Harmless(states[k]) && !HarmfulReset(states[k], acts[k])
    ensures Harmless(states[k + 1]) && (!states[k].mute ==> !states[k + 1].mute)
  {
    var s, a := states[k], acts[k];
    assert Enabled(s, a) && states[k + 1] == Next(s, a);
    HarmlessKept(s, a);
  }

  lemma ResetHarmless(s: State, threads: nat, states: seq<State>, acts: seq<Action>)
    requires Run(states, acts) && states[0] == s && |acts| > 0 && acts[0] == ClientCall(Reset(threads))
    requires s.sh.paused || Drained(s)
    ensures Harmless(states[1])
  {
    assert Enabled(states[0], acts[0]) && states[0 + 1] == Next(states[0], acts[0]);
    CallHarmless(s, Reset(threads));
  }

  // ---------- what it leaves ----------

  /** On the way of a reset(n) called in `s0`: until line 591 the pool is paused, nothing more is dequeued
      or purged, the old queue stays in front; from the creation on there are `n` workers; and at the end
      `paused` is what it was. */
  ghost predicate OnTheWay(s0: State, t: State, n: nat, was: bool) {
    && t.h.purged == s0.h.purged
    && (t.client != Idle ==> InReset(t.client, was) && t.sh.paused && t.h.started == s0.h.started && s0.sh.tasks <= t.sh.tasks)
    && (t.client == Idle ==> |t.ws| == n && t.sh.paused == was && t.sh.workersRunning)
    && match t.client
       case WaitEntry(why) => why == ResetWait(n, was)
       case WaitAsleep(why) => why == ResetWait(n, was)
       case WaitAwake(why) => why == ResetWait(n, was)
       case Stopping(then_) => then_ == Recreate(n, was)
       case StopNotify(then_) => then_ == Recreate(n, was)
       case Joining(_, then_) => then_ == Recreate(n, was)
       case Creating(threads, _) => threads == n
       case Spawning(_, _) => |t.ws| == n && t.sh.workersRunning
       case Restoring(_) => |t.ws| == n && t.sh.workersRunning
       case _ => true
  }

  /** A paused pool starts nothing, whoever steps. */
  lemma PausedStartsNothing(s: State, a: Action)
    requires s.sh.paused && Enabled(s, a)
    ensures Next(s, a).h.started == s.h.started
    ensures !a.ClientCall? ==> Next(s, a).h.purged == s.h.purged && s.sh.tasks <= Next(s, a).sh.tasks
  {
    match a
    case ClientCall(_) =>
    case ClientGo(wake) => ClientTasks(s, wake);
    case ClientSpurious =>
    case WorkerGo(w, wake) => WorkerTasks(s, w, wake);
    case WorkerSubmit(_, _) =>
    case WorkerSpurious(_) =>
  }

  lemma NothingPurged(s: State, a: Action)
    requires Enabled(s, a) && !a.ClientCall?
    ensures Next(s, a).h.purged == s.h.purged
  {
    match a
    case ClientGo(wake) => ClientTasks(s, wake);
    case ClientSpurious =>
    case WorkerGo(w, wake) => WorkerTasks(s, w, wake);
    case WorkerSubmit(_, _) =>
    case WorkerSpurious(_) =>
  }

  lemma ClientOnTheWay(s0: State, t: State, n: nat, was: bool, wake: Option<nat>)
    requires OnTheWay(s0, t, n, was) && Enabled(t, ClientGo(wake))
    requires ClientNext(t, wake).h.started == s0.h.started && ClientNext(t, wake).h.purged == s0.h.purged
    requires s0.sh.tasks <= ClientNext(t, wake).sh.tasks
    ensures OnTheWay(s0, ClientNext(t, wake), n, was)
  {
  }

  lemma OnTheWayKept(s0: State, t: State, a: Action, n: nat, was: bool)
    requires OnTheWay(s0, t, n, was) && Enabled(t, a) && !a.ClientCall?
    ensures OnTheWay(s0, Next(t, a), n, was)
  {
    NothingPurged(t, a);
    if t.client != Idle { PausedStartsNothing(t, a); }
    if a.WorkerGo? {
      WorkerHasEffect(t, a.w, a);
      WorkerQueue(t, a.w, a.wake);
    } else if a.ClientGo? {
      ClientOnTheWay(s0, t, n, was, a.wake);
    }
  }

  lemma {:induction false} OnTheWayAlong(s: State, n: nat, states: seq<State>, acts: seq<Action>, k: nat)
    requires ResetRun(s, n, states, acts) && Inv(s) && 1 <= k < |states|
    ensures OnTheWay(s, states[k], n, s.sh.paused)
  {
    if k == 1 {
      assert Enabled(states[0], acts[0]) && states[0 + 1] == Next(states[0], acts[0]);
    } else {
      OnTheWayAlong(s, n, states, acts, k - 1);
      assert acts[k - 1] == acts[1..][k - 2];
      OnTheWayTo(s, n, states, acts, k - 1);
    }
  }

  lemma OnTheWayTo(s: State, n: nat, states: seq<State>, acts: seq<Action>, k: nat)
    requires Run(states, acts) && k < |acts| && !acts[k].ClientCall? && OnTheWay(s, states[k], n, s.sh.paused)
    ensures OnTheWay(s, states[k + 1], n, s.sh.paused)
  {
    var t, a := states[k], acts[k];
    assert Enabled(t, a) && states[k + 1] == Next(t, a);
    OnTheWayKept(s, t, a, n, s.sh.paused);
  }

  /** When reset(n) has returned there are `n` workers, running, and `paused` is what it was; nothing was
      purged; and until line 591 nothing more was dequeued from the queue it found. */
  lemma ResetLeaves(s: State, n: nat, states: seq<State>, acts: seq<Action>, k: nat)
    requires ResetRun(s, n, states, acts) && Inv(s) && 1 <= k < |states|
    ensures var t := states[k];
      && t.h.purged == s.h.purged
      && (t.client == Idle ==> |t.ws| == n && t.sh.workersRunning && t.sh.paused == s.sh.paused)
      && (t.client != Idle ==> t.sh.paused && t.h.started == s.h.started && s.sh.tasks <= t.sh.tasks)
  {
    OnTheWayAlong(s, n, states, acts, k);
  }

  // ---------- when it is not ----------

  lemma {:induction false} Prepend(s: State, a: Action, states: seq<State>, acts: seq<Action>)
    requires Run(states, acts) && Enabled(s, a) && states[0] == Next(s, a)
    ensures Run([s] + states, [a] + acts)
  {
    var ss, aa := [s] + states, [a] + acts;
    forall i | 0 <= i < |aa|
      ensures Enabled(ss[i], aa[i]) && ss[i + 1] == Next(ss[i], aa[i])
    {
      if i > 0 { assert ss[i] == states[i - 1] && aa[i] == acts[i - 1] && ss[i + 1] == states[i - 1 + 1]; }
    }
  }

  lemma Append(states: seq<State>, acts: seq<Action>, a: Action)
    requires Run(states, acts) && Enabled(states[|acts|], a)
    ensures Run(states + [Next(states[|acts|], a)], acts + [a])
  {
    var ss, aa := states + [Next(states[|acts|], a)], acts + [a];
    forall i | 0 <= i < |aa|
      ensures Enabled(ss[i], aa[i]) && ss[i + 1] == Next(ss[i], aa[i])
    {
      if i < |acts| { assert ss[i] == states[i] && aa[i] == acts[i] && ss[i + 1] == states[i + 1]; }
    }
  }

  /** In the middle of a reset() of an unpaused pool with tasks in the queue. */
  ghost predicate Resetting(s: State) {
    Inv(s) && InReset(s.client, false) && s.sh.paused && s.sh.tasks != []
  }

  ghost predicate ReadyToStrand(s: State) {
    Resetting(s) && s.client.Restoring? && forall i :: 0 <= i < |s.ws| ==> s.ws[i] == Sleeping
  }

  lemma ResettingKept(s: State, a: Action)
    requires Resetting(s) && Enabled(s, a) && Quiet(a) && !(s.client.Restoring? && a.ClientGo?)
    ensures Resetting(Next(s, a))
  {
    InvKept(s, a);
    InResetKept(s, a, false);
    if a.WorkerGo? { WorkerTasks(s, a.w, a.wake); WorkerQueue(s, a.w, a.wake); } else { ClientStaysPaused(s, a.wake); }
  }

  lemma ClientStaysPaused(s: State, wake: Option<nat>)
    requires InReset(s.client, false) && Enabled(s, ClientGo(wake)) && !s.client.Restoring?
    ensures ClientNext(s, wake).sh.paused == s.sh.paused && ClientNext(s, wake).sh.tasks == s.sh.tasks
  {
  }

  /** While resetting, somebody can step until the new workers are all asleep and only line 591 is left. */
  lemma ResettingCanGo(s: State) returns (a: Action)
    requires Resetting(s) && !ReadyToStrand(s)
    ensures Enabled(s, a) && Quiet(a) && !(s.client.Restoring? && a.ClientGo?)
  {
    if w :| 0 <= w < |s.ws| && s.ws[w] != Unstarted && s.ws[w] != Sleeping && s.ws[w] != Exited {
      a := WorkerCanGo(s, w);
    } else {
      NotAllAsleep(s);
      a := ClientCanGo(s);
    }
  }

  lemma NotAllAsleep(s: State)
    requires Resetting(s) && !ReadyToStrand(s)
    requires forall w :: 0 <= w < |s.ws| ==> s.ws[w] == Unstarted || s.ws[w] == Sleeping || s.ws[w] == Exited
    ensures InCall(s.client) && !s.client.WaitAsleep? && !s.client.Restoring?
    ensures s.client.Joining? ==> s.ws[s.client.next] == Exited
  {
    if s.client.WaitAsleep? {
      SumZero(s.ws, BusyBit);
    }
  }

  lemma {:induction false} CanGetReady(s: State) returns (states: seq<State>, acts: seq<Action>)
    requires Resetting(s)
    ensures Run(states, acts) && states[0] == s && NoCalls(acts) && ReadyToStrand(states[|acts|])
    decreases Measure(s)
  {
    if ReadyToStrand(s) {
      states, acts := [s], [];
    } else {
      var a := ResettingCanGo(s);
      ResettingKept(s, a);
      QuietDecreases(s, a);
      states, acts := CanGetReady(Next(s, a));
      Prepend(s, a, states, acts);
      states, acts := [s] + states, [a] + acts;
    }
  }

  /** Line 591 in that state strands the queue, and a wait() called next sleeps for good. */
  lemma RestoringStrands(s: State)
    requires ReadyToStrand(s)
    ensures Enabled(s, ClientGo(None))
    ensures var idle := ClientNext(s, None);
      && idle.client == Idle && idle.mute && idle.sh == s.sh.(paused := false) && idle.ws == s.ws
  {
    SumZero(s.ws, HeadedBit);
    assert s.ws[0] == Sleeping;
  }

  lemma WaitStrands(s: State)
    requires Inv(s) && s.client == Idle && !s.sh.paused && s.sh.tasks != []
    requires forall i :: 0 <= i < |s.ws| ==> s.ws[i] == Sleeping
    ensures Enabled(s, ClientCall(Wait)) && Enabled(CallNext(s, Wait), ClientGo(None))
    ensures var t := ClientNext(CallNext(s, Wait), None); Stranded(t) && Stuck(t)
  {
    InvKept(s, ClientCall(Wait));
    var t := ClientNext(CallNext(s, Wait), None);
    assert Next(CallNext(s, Wait), ClientGo(None)) == t;
    InvKept(CallNext(s, Wait), ClientGo(None));
    StuckIffStranded(t);
  }

  lemma ResetStarts(s: State, threads: nat)
    requires Inv(s) && s.client == Idle && 1 <= threads <= UINT_MAX && !s.sh.paused
    ensures var t := CallNext(s, Reset(threads));
      Inv(t) && InReset(t.client, false) && t.sh == s.sh.(paused := true) && t.ws == s.ws
  {
    InvKept(s, ClientCall(Reset(threads)));
  }

  lemma CanGetReadyOrSubmit(s: State) returns (states: seq<State>, acts: seq<Action>)
    requires Inv(s) && InReset(s.client, false) && s.sh.paused && !Drained(s)
    ensures Run(states, acts) && states[0] == s && NoCalls(acts) && ReadyToStrand(states[|acts|])
  {
    if s.sh.tasks != [] {
      states, acts := CanGetReady(s);
    } else {
      var w :| 0 <= w < |s.ws| && InTask(s.ws[w]);
      states, acts := CanSubmit(s, w);
    }
  }

  /** Outside every call, with tasks in the queue of an unpaused pool and every worker asleep. */
  ghost predicate IdleStranded(t: State) {
    && t.client == Idle && !t.sh.paused && t.sh.tasks != []
    && forall i :: 0 <= i < |t.ws| ==> t.ws[i] == Sleeping
  }

  /** From every idle unpaused state with queued tasks, or with an executing task that submits one in
      time, reset() has a run that leaves all new workers asleep beside the queue. */
  lemma ResetCanStrand(s: State, threads: nat) returns (states: seq<State>, acts: seq<Action>)
    requires Inv(s) && s.client == Idle && 1 <= threads <= UINT_MAX
    requires !s.sh.paused && !Drained(s)
    ensures ResetRun(s, threads, states, acts)
    ensures IdleStranded(states[|acts|])
  {
    ResetStarts(s, threads);
    states, acts := CanGetReadyOrSubmit(CallNext(s, Reset(threads)));
    RestoringStrands(states[|acts|]);
    Append(states, acts, ClientGo(None));
    states, acts := states + [Next(states[|acts|], ClientGo(None))], acts + [ClientGo(None)];
    Prepend(s, ClientCall(Reset(threads)), states, acts);
    assert ([ClientCall(Reset(threads))] + acts)[1..] == acts;
    states, acts := [s] + states, [ClientCall(Reset(threads))] + acts;
  }

  /** A task that is executing while reset() waits for it may submit another one. */
  lemma CanSubmit(s: State, w: nat) returns (states: seq<State>, acts: seq<Action>)
    requires Inv(s) && InReset(s.client, false) && s.sh.paused && w < |s.ws| && InTask(s.ws[w])
    ensures Run(states, acts) && states[0] == s && NoCalls(acts) && ReadyToStrand(states[|acts|])
  {
    if s.ws[w].TaskNotify? {
      var a := WorkerCanGo(s, w);
      NotifiedExecutes(s, w, a.wake);
      InvKept(s, a);
      states, acts := CanSubmitNow(Next(s, a), w);
      Prepend(s, a, states, acts);
      states, acts := [s] + states, [a] + acts;
    } else {
      states, acts := CanSubmitNow(s, w);
    }
  }

  lemma NotifiedExecutes(s: State, w: nat, wake: Option<nat>)
    requires Enabled(s, WorkerGo(w, wake)) && s.ws[w].TaskNotify?
    ensures var t := WorkerNext(s, w, wake); t.ws[w].Exec? && t.sh == s.sh && t.client == s.client && |t.ws| == |s.ws|
  {
  }

  lemma CanSubmitNow(s: State, w: nat) returns (states: seq<State>, acts: seq<Action>)
    requires Inv(s) && InReset(s.client, false) && s.sh.paused && w < |s.ws| && s.ws[w].Exec?
    ensures Run(states, acts) && states[0] == s && NoCalls(acts) && ReadyToStrand(states[|acts|])
  {
    var a := WorkerSubmit(w, Call(0));
    InvKept(s, a);
    states, acts := CanGetReady(Next(s, a));
    Prepend(s, a, states, acts);
    states, acts := [s] + states, [a] + acts;
  }

  lemma IdleStrandedIsMute(t: State)
    requires Inv(t) && IdleStranded(t)
    ensures t.mute
  {
    SumZero(t.ws, HeadedBit);
    assert t.ws[0] == Sleeping;
  }

  lemma SafeResetEnds(s: State, threads: nat, states: seq<State>, acts: seq<Action>)
    requires Inv(s) && s.client == Idle && (s.sh.paused || Drained(s)) && ResetRun(s, threads, states, acts)
    ensures !IdleStranded(states[|acts|])
  {
    ResetHarmless(s, threads, states, acts);
    forall i | 1 <= i < |acts|
      ensures !HarmfulReset(states[i], acts[i])
    {
      assert acts[i] == acts[1..][i - 1];
    }
    HarmlessAlong(states, acts, 1, |acts|);
    InvAlong(states, acts, |acts|);
    if IdleStranded(states[|acts|]) { IdleStrandedIsMute(states[|acts|]); }
  }

  /** Exactly when reset() keeps its promise: some run of it ends with every new worker asleep beside
      queued tasks if and only if the pool was not paused and a task was queued or executing when it was
      called. */
  lemma ResetStrandsIff(s: State, threads: nat)
    requires Inv(s) && s.client == Idle && 1 <= threads <= UINT_MAX
    ensures (exists states: seq<State>, acts: seq<Action> :: ResetRun(s, threads, states, acts) && IdleStranded(states[|acts|]))
       <==> !s.sh.paused && !Drained(s)
  {
    if !s.sh.paused && !Drained(s) {
      var states, acts := ResetCanStrand(s, threads);
      assert IdleStranded(states[|acts|]);
    } else {
      forall states: seq<State>, acts: seq<Action> | ResetRun(s, threads, states, acts)
        ensures !IdleStranded(states[|acts|])
      {
        SafeResetEnds(s, threads, states, acts);
      }
    }
  }

  /** A run of reset(), at its step `j` of wait(), and of no other call. */
  ghost predicate ResetWaitRun(s: State, threads: nat, states: seq<State>, acts: seq<Action>, j: nat) {
    && Run(states, acts) && states[0] == s
    && 0 < j < |acts| && acts[0] == ClientCall(Reset(threads)) && acts[j] == ClientCall(Wait)
    && forall i :: 0 < i < |acts| && i != j ==> !acts[i].ClientCall?
  }

  /** After such a reset(), wait() can block with nothing left that could wake it. */
  lemma WaitAfterResetHangs(s: State, threads: nat) returns (states: seq<State>, acts: seq<Action>)
    requires Inv(s) && s.client == Idle && 1 <= threads <= UINT_MAX
    requires !s.sh.paused && !Drained(s)
    ensures |acts| >= 2 && ResetWaitRun(s, threads, states, acts, |acts| - 2)
    ensures Stranded(states[|acts|]) && UserWaiting(states[|acts|].client) && Stuck(states[|acts|])
  {
    states, acts := ResetCanStrand(s, threads);
    InvAlong(states, acts, |acts|);
    WaitStrands(states[|acts|]);
    Append(states, acts, ClientCall(Wait));
    states, acts := states + [Next(states[|acts|], ClientCall(Wait))], acts + [ClientCall(Wait)];
    Append(states, acts, ClientGo(None));
    states, acts := states + [Next(states[|acts|], ClientGo(None))], acts + [ClientGo(None)];
    NoFurtherCalls(states, acts);
  }

  lemma NoFurtherCalls(states: seq<State>, acts: seq<Action>)
    requires |acts| >= 3 && NoCalls(acts[1..|acts| - 2]) && acts[|acts| - 1] == ClientGo(None)
    ensures forall i :: 0 < i < |acts| && i != |acts| - 2 ==> !acts[i].ClientCall?
  {
    forall i | 0 < i < |acts| && i != |acts| - 2
      ensures !acts[i].ClientCall?
    {
      if i < |acts| - 2 { assert acts[i] == acts[1..|acts| - 2][i - 1]; }
    }
  }

  lemma SafeResetThenWait(s: State, threads: nat, states: seq<State>, acts: seq<Action>, j: nat)
    requires Inv(s) && s.client == Idle && (s.sh.paused || Drained(s)) && ResetWaitRun(s, threads, states, acts, j)
    ensures !(Stuck(states[|acts|]) && UserWaiting(states[|acts|].client))
  {
    ResetHarmless(s, threads, states, acts);
    HarmlessAlong(states, acts, 1, |acts|);
    InvAlong(states, acts, |acts|);
    if UserWaiting(states[|acts|].client) { StuckIffStranded(states[|acts|]); }
  }

  /** Exactly when wait() after reset() returns: some run of the two ends stuck inside wait() if and only
      if the pool was not paused and a task was queued or executing when reset() was called. */
  lemma WaitAfterResetHangsIff(s: State, threads: nat)
    requires Inv(s) && s.client == Idle && 1 <= threads <= UINT_MAX
    ensures (exists states: seq<State>, acts: seq<Action>, j: nat ::
               ResetWaitRun(s, threads, states, acts, j) && Stuck(states[|acts|]) && UserWaiting(states[|acts|].client))
       <==> !s.sh.paused && !Drained(s)
  {
    if !s.sh.paused && !Drained(s) {
      var states, acts := WaitAfterResetHangs(s, threads);
      assert ResetWaitRun(s, threads, states, acts, |acts| - 2);
    } else {
      forall states: seq<State>, acts: seq<Action>, j: nat | ResetWaitRun(s, threads, states, acts, j)
        ensures !(Stuck(states[|acts|]) && UserWaiting(states[|acts|].client))
      {
        SafeResetThenWait(s, threads, states, acts, j);
      }
    }
  }
}
