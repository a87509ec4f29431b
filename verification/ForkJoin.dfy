/** detach_loop followed by wait() is a fork-join: the loop function is called once per index. */
module ForkJoin {
  import opened PoolModel
  import opened PoolInvariant
  import opened PoolSafety
  import opened PoolTheorems
  import opened LoopBlocks

  /** How often the finished tasks of a batch have called loop(i). */
  function CallCount(finished: seq<nat>, batch: seq<nat>, log: seq<Job>, i: int): nat {
    if finished == [] then 0
    else CallCount(finished[..|finished| - 1], batch, log, i) + Hit(finished[|finished| - 1], batch, log, i)
  }

  function Hit(id: nat, batch: seq<nat>, log: seq<Job>, i: int): nat {
    if id in batch && id < |log| && Calls(log[id], i) then 1 else 0
  }

  /** If the only task of the batch that covers `i` is `id`, the count is how often `id` finished. */
  lemma {:induction false} CountOfOne(finished: seq<nat>, batch: seq<nat>, log: seq<Job>, i: int, id: nat)
    requires forall x :: x in batch && x < |log| ==> (Calls(log[x], i) <==> x == id)
    requires id in batch && id < |log|
    ensures CallCount(finished, batch, log, i) == multiset(finished)[id]
  {
    if finished != [] {
      var front := finished[..|finished| - 1];
      CountOfOne(front, batch, log, i, id);
      assert finished == front + [finished[|finished| - 1]];
    }
  }

  lemma {:induction false} CountOfNone(finished: seq<nat>, batch: seq<nat>, log: seq<Job>, i: int)
    requires forall x :: x in batch && x < |log| ==> !Calls(log[x], i)
    ensures CallCount(finished, batch, log, i) == 0
  {
    if finished != [] { CountOfNone(finished[..|finished| - 1], batch, log, i); }
  }

  /** Only the batch member at position `k` covers `i`. */
  lemma OnlyMember(call: DetachCall, log: seq<Job>, i: int, k: nat)
    requires Submitted(call, log) && k < |call.plan|
    requires forall j :: 0 <= j < |call.plan| ==> (Calls(call.plan[j], i) <==> j == k)
    ensures forall x :: x in call.batch && x < |log| ==> (Calls(log[x], i) <==> x == call.batch[k])
  {
    forall x | x in call.batch && x < |log|
      ensures Calls(log[x], i) <==> x == call.batch[k]
    {
      var j :| 0 <= j < |call.batch| && call.batch[j] == x;
      assert log[call.batch[j]] == call.plan[j];
    }
  }

  lemma NoMember(call: DetachCall, log: seq<Job>, i: int)
    requires Submitted(call, log)
    requires forall j :: 0 <= j < |call.plan| ==> !Calls(call.plan[j], i)
    ensures forall x :: x in call.batch && x < |log| ==> !Calls(log[x], i)
  {
    forall x | x in call.batch && x < |log|
      ensures !Calls(log[x], i)
    {
      var j :| 0 <= j < |call.batch| && call.batch[j] == x;
      assert log[call.batch[j]] == call.plan[j];
    }
  }

  /** The detach calls that the client has made, the latest last. */
  function DetachCalls(h: History): (calls: seq<DetachCall>)
    ensures |calls| == |h.past| + 1
  {
    h.past + [h.call]
  }

  /** Outside its submissions the client has submitted all jobs of all its calls. */
  lemma AllSubmitted(s: State, c: nat)
    requires Batch(s) && !s.client.Pushing? && !s.client.Notifying? && c < |DetachCalls(s.h)|
    ensures Submitted(DetachCalls(s.h)[c], s.h.log)
  {
  }

  /** In every run, with any number of workers, other tasks, nested submissions and pauses: if the
      client's c-th detach call, however long ago, was detach_loop(first, last, loop, num) and a wait()
      returns unpaused with none of its tasks purged, loop(i) was called exactly once for each index of
      the range and for no other. */
  lemma LoopCallsEachIndexOnce(threads: nat, states: seq<State>, acts: seq<Action>, k: nat, c: nat,
                               first: int, last: int, num: nat, threadCount: nat, i: int)
    requires 1 <= threads <= UINT_MAX && Run(states, acts) && states[0] == InitState(threads)
    requires k < |acts| && WaitEnds(states[k], acts[k]) && !states[k].sh.paused
    requires c < |DetachCalls(states[k].h)| && threadCount >= 1
    requires DetachCalls(states[k].h)[c].plan == LoopPlan(first, last, num, threadCount)
    requires forall id :: id in DetachCalls(states[k].h)[c].batch ==> id !in states[k].h.purged
    ensures var h := states[k].h;
      CallCount(h.finished, DetachCalls(h)[c].batch, h.log, i) == if first <= i < last then 1 else 0
  {
    var s := states[k];
    var call := DetachCalls(s.h)[c];
    InvOnRuns(threads, states, acts, k);
    assert Enabled(states[k], acts[k]) && states[k + 1] == Next(states[k], acts[k]);
    AllSubmitted(s, c);
    var b := PlanCoversOnce(first, last, num, threadCount, i);
    if first <= i < last {
      var id := call.batch[b];
      OnlyMember(call, s.h.log, i, b);
      CountOfOne(s.h.finished, call.batch, s.h.log, i, id);
      WaitMeansDone(threads, states, acts, k, id);
      HistoryAtWaitEnd(s, acts[k]);
      assert id in call.batch;
    } else {
      NoMember(call, s.h.log, i);
      CountOfNone(s.h.finished, call.batch, s.h.log, i);
    }
  }

  lemma HistoryAtWaitEnd(s: State, a: Action)
    requires Enabled(s, a) && WaitEnds(s, a)
    ensures Next(s, a).h == s.h && Next(s, a).sh.paused == s.sh.paused
  {
  }
}
