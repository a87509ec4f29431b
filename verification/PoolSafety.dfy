/** Task bookkeeping, and what holds in every state of every run of the pool. */
module PoolSafety {
  import opened PoolModel
  import opened PoolInvariant

  // ---------- first in, first out ----------

  lemma {:induction false} RemainingNew(n: nat, purged: seq<nat>, p: seq<nat>)
    requires forall x: nat :: x < n ==> (x in purged <==> x in p)
    ensures Remaining(n, purged) == Remaining(n, p)
  {
    if n > 0 { RemainingNew(n - 1, purged, p); }
  }

  lemma LastQueued(rest: seq<nat>, last: nat, started: seq<nat>, queue: seq<nat>)
    requires started + queue == rest + [last] && queue != []
    ensures queue[|queue| - 1] == last && queue == queue[..|queue| - 1] + [last]
    ensures started + queue[..|queue| - 1] == rest
  {
    var all := started + queue;
    assert all[|all| - 1] == last && all[..|all| - 1] == rest;
  }

  /** Purging the whole queue leaves exactly the ids dequeued before it. */
  lemma {:induction false} RemainingPurge(n: nat, purged: seq<nat>, started: seq<nat>, queue: seq<nat>)
    requires started + queue == Remaining(n, purged)
    ensures started == Remaining(n, purged + queue)
  {
    if queue == [] {
      assert purged + queue == purged;
    } else if n - 1 in purged {
      RemainingPurge(n - 1, purged, started, queue);
    } else {
      var front := queue[..|queue| - 1];
      LastQueued(Remaining(n - 1, purged), n - 1, started, queue);
      RemainingPurge(n - 1, purged, started, front);
      RemainingNew(n - 1, purged + front, purged + queue);
      assert n - 1 in purged + queue;
    }
  }

  /** How a worker's own step moves tasks: not at all, or the front of the queue into its hands. */
  lemma WorkerTasks(s: State, w: nat, wake: Option<nat>)
    requires Enabled(s, WorkerGo(w, wake))
    ensures var s' := WorkerNext(s, w, wake);
      && s'.h.log == s.h.log && s'.h.purged == s.h.purged
      && s'.h.past == s.h.past && s'.h.call == s.h.call
      && (s.ws[w] == Recheck && TakeDecision(s.sh).Take? ==>
           s.sh.tasks != [] && s'.sh.tasks == s.sh.tasks[1..] && s'.h.started == s.h.started + [s.sh.tasks[0]]
           && s'.ws[w] == Exec(s.sh.tasks[0]))
      && (!(s.ws[w] == Recheck && TakeDecision(s.sh).Take?) ==> s'.sh.tasks == s.sh.tasks && s'.h.started == s.h.started)
      && s'.h.finished == s.h.finished + (if s.ws[w].Exec? then [s.ws[w].id] else [])
  {
  }

  /** How the client's step moves tasks: one submission, or not at all. */
  lemma ClientTasks(s: State, wake: Option<nat>)
    requires Enabled(s, ClientGo(wake))
    ensures var s' := ClientNext(s, wake);
      && s'.h.started == s.h.started && s'.h.finished == s.h.finished && s'.h.purged == s.h.purged && s'.h.past == s.h.past
      && (!s.client.Pushing? ==> s'.sh.tasks == s.sh.tasks && s'.h == s.h)
      && (s.client.Pushing? ==>
           (&& s'.sh.tasks == s.sh.tasks + [|s.h.log|] && s'.h.log == s.h.log + [s.client.rest[0]]
            && s'.h.call == s.h.call.(batch := s.h.call.batch + [|s.h.log|])))
  {
  }

  lemma SubmitFifo(s: State, s': State)
    requires Fifo(s) && PurgedKnown(s)
    requires |s'.h.log| == |s.h.log| + 1 && s'.h.started == s.h.started && s'.h.purged == s.h.purged
    requires s'.sh.tasks == s.sh.tasks + [|s.h.log|]
    ensures Fifo(s')
  {
    assert |s.h.log| !in s.h.purged;
    assert s'.h.started + s'.sh.tasks == (s.h.started + s.sh.tasks) + [|s.h.log|];
  }

  ghost predicate PurgedKnown(s: State) { forall id :: id in s.h.purged ==> id < |s.h.log| }

  lemma PlacesPurged(s: State)
    requires Places(s)
    ensures PurgedKnown(s)
  {
    forall id | id in s.h.purged
      ensures id < |s.h.log|
    {
      assert PlacedOnce(s, id);
      assert multiset(s.h.purged)[id] > 0;
    }
  }

  lemma CallFifo(s: State, api: Api)
    requires Fifo(s)
    ensures Fifo(CallNext(s, api))
  {
    if api.Purge? {
      RemainingPurge(|s.h.log|, s.h.purged, s.h.started, s.sh.tasks);
      assert s.h.started + [] == s.h.started;
    }
  }

  lemma FifoKept(s: State, a: Action)
    requires Fifo(s) && Places(s) && Enabled(s, a)
    ensures Fifo(Next(s, a))
  {
    PlacesPurged(s);
    match a
    case ClientCall(api) => CallFifo(s, api);
    case ClientGo(wake) =>
      ClientTasks(s, wake);
      if s.client.Pushing? { SubmitFifo(s, Next(s, a)); }
    case ClientSpurious =>
    case WorkerGo(w, wake) =>
      WorkerTasks(s, w, wake);
      if s.ws[w] == Recheck && TakeDecision(s.sh).Take? {
        var t := s.sh.tasks;
        assert s.h.started + t == (s.h.started + [t[0]]) + t[1..];
      }
    case WorkerSubmit(w, _) => SubmitFifo(s, Next(s, a));
    case WorkerSpurious(_) =>
  }

  // ---------- every task in exactly one place ----------

  lemma CountAppend(a: seq<nat>, b: seq<nat>, id: nat)
    ensures multiset(a + b)[id] == multiset(a)[id] + multiset(b)[id]
  {
  }

  lemma CountTail(a: seq<nat>, id: nat)
    requires a != []
    ensures multiset(a)[id] == multiset(a[1..])[id] + if a[0] == id then 1 else 0
  {
    assert a == [a[0]] + a[1..];
  }

  lemma WorkerPlaced(s: State, w: nat, wake: Option<nat>, id: nat)
    requires PlacedOnce(s, id) && Enabled(s, WorkerGo(w, wake))
    ensures PlacedOnce(WorkerNext(s, w, wake), id)
  {
    WorkerTasks(s, w, wake);
    WorkerSum(s, w, wake, HoldBit(id));
    if s.ws[w] == Recheck && TakeDecision(s.sh).Take? {
      CountTail(s.sh.tasks, id);
      CountAppend(s.h.started, [s.sh.tasks[0]], id);
    } else {
      CountAppend(s.h.finished, if s.ws[w].Exec? then [s.ws[w].id] else [], id);
      WorkerHolds(s, w, wake, id);
    }
  }

  lemma WorkerHolds(s: State, w: nat, wake: Option<nat>, id: nat)
    requires Enabled(s, WorkerGo(w, wake)) && !(s.ws[w] == Recheck && TakeDecision(s.sh).Take?)
    ensures HoldBit(id)(s.ws[w]) == HoldBit(id)(WorkerNext(s, w, wake).ws[w]) + if s.ws[w] == Exec(id) then 1 else 0
  {
  }

  lemma SubmitPlaced(s: State, s': State, id: nat)
    requires PlacedOnce(s, id)
    requires |s'.h.log| == |s.h.log| + 1 && s'.h.started == s.h.started && s'.h.purged == s.h.purged
    requires s'.h.finished == s.h.finished && Holding(s'.ws, id) == Holding(s.ws, id)
    requires s'.sh.tasks == s.sh.tasks + [|s.h.log|]
    ensures PlacedOnce(s', id)
  {
    CountAppend(s.sh.tasks, [|s.h.log|], id);
  }

  lemma ClientPlaced(s: State, wake: Option<nat>, id: nat)
    requires WorkerShape(s) && PlacedOnce(s, id) && Enabled(s, ClientGo(wake))
    ensures PlacedOnce(ClientNext(s, wake), id)
  {
    ClientTasks(s, wake);
    ClientHolds(s, wake, id);
    if s.client.Pushing? { SubmitPlaced(s, ClientNext(s, wake), id); }
  }

  lemma ClientHolds(s: State, wake: Option<nat>, id: nat)
    requires WorkerShape(s) && Enabled(s, ClientGo(wake))
    ensures Holding(ClientNext(s, wake).ws, id) == Holding(s.ws, id)
  {
    if s.client.Creating? {
      SumZero(s.ws, HoldBit(id));
      SumFresh(s.client.threads, HoldBit(id));
    } else {
      OthersHold(s, wake, id);
    }
  }

  lemma OthersHold(s: State, wake: Option<nat>, id: nat)
    requires !s.client.Creating? && Enabled(s, ClientGo(wake))
    requires s.client.Spawning? ==> s.ws[s.client.next] == Unstarted
    ensures Holding(ClientNext(s, wake).ws, id) == Holding(s.ws, id)
  {
    ClientSum(s, wake, HoldBit(id));
  }

  lemma PlacesKept(s: State, a: Action)
    requires WorkerShape(s) && Places(s) && Enabled(s, a)
    ensures Places(Next(s, a))
  {
    forall id: nat
      ensures PlacedOnce(Next(s, a), id)
    {
      assert PlacedOnce(s, id);
      PlacedKept(s, a, id);
    }
  }

  lemma CallPlaced(s: State, api: Api, id: nat)
    requires PlacedOnce(s, id)
    ensures PlacedOnce(CallNext(s, api), id)
  {
    if api.Purge? { CountAppend(s.h.purged, s.sh.tasks, id); }
  }

  lemma PlacedKept(s: State, a: Action, id: nat)
    requires WorkerShape(s) && PlacedOnce(s, id) && Enabled(s, a)
    ensures PlacedOnce(Next(s, a), id)
  {
    match a
    case ClientCall(api) => CallPlaced(s, api, id);
    case ClientGo(wake) => ClientPlaced(s, wake, id);
    case ClientSpurious =>
    case WorkerGo(w, wake) => WorkerPlaced(s, w, wake, id);
    case WorkerSubmit(w, _) =>
      SumUpdate(s.ws, w, TaskNotify(s.ws[w].id), HoldBit(id));
      SubmitPlaced(s, Next(s, a), id);
    case WorkerSpurious(w) => SumUpdate(s.ws, w, Recheck, HoldBit(id));
  }

  // ---------- the detach calls ----------

  lemma SubmittedStays(past: seq<DetachCall>, log: seq<Job>, job: Job)
    requires forall i :: 0 <= i < |past| ==> Submitted(past[i], log)
    ensures forall i :: 0 <= i < |past| ==> Submitted(past[i], log + [job])
  {
  }

  /** A submission of any thread leaves the ids of the client's calls tied to their jobs. */
  lemma OthersSubmit(s: State, s': State, job: Job)
    requires Batch(s) && s'.h.log == s.h.log + [job] && s'.h.past == s.h.past && s'.h.call == s.h.call
    requires s'.client == s.client
    ensures Batch(s')
  {
    SubmittedStays(s.h.past, s.h.log, job);
  }

  lemma BatchKept(s: State, a: Action)
    requires ClientShape(s) && Batch(s) && Enabled(s, a)
    ensures Batch(Next(s, a))
  {
    match a
    case ClientCall(_) =>
    case ClientGo(wake) => ClientBatchKept(s, wake);
    case ClientSpurious =>
    case WorkerGo(w, wake) => WorkerTasks(s, w, wake); WorkerHasEffect(s, w, a);
    case WorkerSubmit(_, job) => OthersSubmit(s, Next(s, a), job);
    case WorkerSpurious(_) =>
  }

  lemma ClientBatchKept(s: State, wake: Option<nat>)
    requires ClientShape(s) && Batch(s) && Enabled(s, ClientGo(wake))
    ensures Batch(ClientNext(s, wake))
  {
    if s.client.Pushing? {
      PushBatchKept(s, wake);
    } else {
      ClientTasks(s, wake);
    }
  }

  lemma PushBatchKept(s: State, wake: Option<nat>)
    requires s.client.Pushing? && Batch(s) && Enabled(s, ClientGo(wake))
    ensures Batch(ClientNext(s, wake))
  {
    var rest := s.client.rest;
    var plan, n := s.h.call.plan, |s.h.call.batch|;
    assert plan[n..] == rest;
    assert plan[n] == rest[0] && plan[n + 1..] == rest[1..];
    ClientTasks(s, wake);
    SubmittedStays(s.h.past, s.h.log, rest[0]);
  }

  // ---------- the whole invariant ----------

  lemma InvInit(threads: nat)
    requires 1 <= threads <= UINT_MAX
    ensures Inv(InitState(threads))
  {
    var s := InitState(threads);
    assert forall id: nat :: PlacedOnce(s, id);
  }

  lemma InvKept(s: State, a: Action)
    requires Inv(s) && Enabled(s, a)
    ensures Inv(Next(s, a))
  {
    ShapeKept(s, a);
    CounterKept(s, a);
    WakeupKept(s, a);
    WorkKept(s, a);
    FifoKept(s, a);
    PlacesKept(s, a);
    BatchKept(s, a);
  }

  /** Every state of every run from a new pool satisfies the invariant. */
  lemma {:induction false} InvOnRuns(threads: nat, states: seq<State>, acts: seq<Action>, k: nat)
    requires 1 <= threads <= UINT_MAX && Run(states, acts) && states[0] == InitState(threads) && k < |states|
    ensures Inv(states[k])
  {
    if k == 0 {
      InvInit(threads);
    } else {
      InvOnRuns(threads, states, acts, k - 1);
      assert Enabled(states[k - 1], acts[k - 1]);
      assert states[k - 1 + 1] == Next(states[k - 1], acts[k - 1]);
      InvKept(states[k - 1], acts[k - 1]);
    }
  }
}
