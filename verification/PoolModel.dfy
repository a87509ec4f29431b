/** The thread pool of TestBS/BS_thread_pool.hpp, built with BS_THREAD_POOL_ENABLE_PAUSE, as a
    labelled transition system.

    The fields guarded by `tasks_mutex` form a `Shared` record; every lock-delimited region of the
    source is one function on that record and one atomic step.  What happens outside the lock (the
    four reads of line 917, every notify, running a task) is a step of its own, so all sequentially
    consistent interleavings are runs of this system.  A task is named by its submission number;
    its closure is `log[number]`. */
module PoolModel {

  datatype Option<+T> = None | Some(value: T)

  /** What a task does when it runs: `Call(arg)` calls the submitted function once, `Loop(start, end)`
      is the closure `detach_loop` makes for one block. */
  datatype Job = Call(arg: int) | Loop(start: int, end: int)

  const SIZE_MAX: nat := 0xFFFF_FFFF_FFFF_FFFF
  const UINT_MAX: nat := 0xFFFF_FFFF

  // ---------- the fields under the mutex, and the lock-delimited regions ----------

  datatype Shared = Shared(tasks: seq<nat>, running: nat, waiting: bool, paused: bool, workersRunning: bool)

  predicate PausedOrEmpty(sh: Shared) { sh.paused || sh.tasks == [] }

  /** The predicate `wait()` waits for. */
  predicate Done(sh: Shared) { sh.running == 0 && PausedOrEmpty(sh) }

  /** `--tasks_running` and `++tasks_running` on a `size_t`, wrap-around included. */
  function Minus1(n: nat): nat { if n == 0 then SIZE_MAX else n - 1 }

  function Plus1(n: nat): nat { if n == SIZE_MAX then 0 else n + 1 }

  function SubmitRegion(sh: Shared, id: nat): Shared { sh.(tasks := sh.tasks + [id]) }

  function PauseRegion(sh: Shared, paused: bool): Shared { sh.(paused := paused) }

  function PurgeRegion(sh: Shared): Shared { sh.(tasks := []) }

  function CreateRegion(sh: Shared, threadCount: nat): Shared { sh.(running := threadCount, workersRunning := true) }

  function StopRegion(sh: Shared): Shared { sh.(workersRunning := false) }

  function DecrementRegion(sh: Shared): Shared { sh.(running := Minus1(sh.running)) }

  /** What a worker does with the lock held between evaluating its wait predicate and releasing it. */
  datatype Taken = Sleep | Quit | Take(id: nat)

  function TakeDecision(sh: Shared): Taken {
    if PausedOrEmpty(sh) && sh.workersRunning then Sleep
    else if !sh.workersRunning then Quit
    else Take(sh.tasks[0])
  }

  function TakeRegion(sh: Shared): Shared {
    if TakeDecision(sh).Take? then sh.(tasks := sh.tasks[1..], running := Plus1(sh.running)) else sh
  }

  /** `wait()` from taking the lock (or being woken with it) to returning or sleeping. */
  function WaitRegion(sh: Shared): Shared { sh.(waiting := !Done(sh)) }

  // ---------- threads ----------

  datatype WorkerPc =
    | Unstarted
    | Init               // in init_task, counted in tasks_running from the start
    | Exec(id: nat)      // inside task()
    | TaskNotify(id: nat) // inside task(), between the unlock and the notify_one of a nested detach_task
    | Finished           // task() returned, about to take the lock and decrement
    | ReadWaiting | ReadRunning | ReadPaused | ReadEmpty  // the unlocked reads of line 917
    | NotifyDone         // all of them succeeded, about to notify
    | Recheck            // about to evaluate the wait predicate with the lock held
    | Sleeping           // blocked on task_available_cv
    | Exited

  /** Why the client is waiting, and so what it does next. */
  datatype Purpose = UserWait | DtorWait | ResetWait(threads: nat, was: bool)

  /** What follows destroy_threads: nothing, or the second half of reset(). */
  datatype Then = Destroy | Recreate(threads: nat, was: bool)

  datatype ClientPc =
    | Creating(threads: nat, restore: Option<bool>)  // before the region of create_threads
    | Spawning(next: nat, restore: Option<bool>)     // in its loop
    | Restoring(was: bool)                           // before line 590
    | Idle
    | Pushing(rest: seq<Job>)                        // detach_task calls still to make
    | Notifying(rest: seq<Job>)                      // pushed, before notify_one
    | Unpausing                                      // before the notify_all of unpause
    | WaitEntry(why: Purpose) | WaitAsleep(why: Purpose) | WaitAwake(why: Purpose)
    | Stopping(then_: Then) | StopNotify(then_: Then) | Joining(next: nat, then_: Then)
    | Gone

  /** A detach call of the client: the jobs it submits and the ids they have got so far. */
  datatype DetachCall = DetachCall(plan: seq<Job>, batch: seq<nat>)

  /** What happened so far: the submissions in order, the ids dequeued, returned from and purged, the
      client's earlier detach calls and its latest one. */
  datatype History = History(log: seq<Job>, started: seq<nat>, finished: seq<nat>, purged: seq<nat>,
                             past: seq<DetachCall>, call: DetachCall)

  /** `mute` is set when reset() restores `paused` with workers already asleep beside queued tasks. */
  datatype State = State(sh: Shared, ws: seq<WorkerPc>, client: ClientPc, h: History, mute: bool)

  /** The constructor's argument resolved against the hardware concurrency. */
  function DetermineThreadCount(requested: nat, hardware: nat): (n: nat)
    ensures 1 <= n
    ensures requested > 0 ==> n == requested
    ensures requested == 0 && hardware > 0 ==> n == hardware
    ensures requested == 0 && hardware == 0 ==> n == 1
  {
    if requested > 0 then requested else if hardware > 0 then hardware else 1
  }

  function InitState(threads: nat): State {
    State(Shared([], 0, false, false, false), [], Creating(threads, None), History([], [], [], [], [], DetachCall([], [])), false)
  }

  // ---------- steps ----------

  datatype Api = Detach(jobs: seq<Job>) | Pause | Unpause | Purge | Wait | Destruct | Reset(threads: nat)

  /** `wake` is the sleeper a notify_one picks, when there is one. */
  datatype Action =
    | ClientCall(api: Api)
    | ClientGo(wake: Option<nat>)
    | ClientSpurious
    | WorkerGo(w: nat, wake: Option<nat>)
    | WorkerSubmit(w: nat, job: Job)
    | WorkerSpurious(w: nat)

  predicate HasSleeper(ws: seq<WorkerPc>) { exists i :: 0 <= i < |ws| && ws[i] == Sleeping }

  predicate WakeOk(ws: seq<WorkerPc>, wake: Option<nat>) {
    match wake
    case None => !HasSleeper(ws)
    case Some(i) => i < |ws| && ws[i] == Sleeping
  }

  function WakeOne(ws: seq<WorkerPc>, wake: Option<nat>): (r: seq<WorkerPc>)
    requires WakeOk(ws, wake)
    ensures |r| == |ws|
  {
    if wake.Some? then ws[wake.value := Recheck] else ws
  }

  function WakeAll(ws: seq<WorkerPc>): (r: seq<WorkerPc>)
    ensures |r| == |ws|
    ensures forall i :: 0 <= i < |ws| ==> r[i] == if ws[i] == Sleeping then Recheck else ws[i]
  {
    if ws == [] then [] else [if ws[0] == Sleeping then Recheck else ws[0]] + WakeAll(ws[1..])
  }

  function Fresh(n: nat): (ws: seq<WorkerPc>)
    ensures |ws| == n && forall i :: 0 <= i < n ==> ws[i] == Unstarted
  {
    if n == 0 then [] else [Unstarted] + Fresh(n - 1)
  }

  predicate Enabled(s: State, a: Action) {
    match a
    case ClientCall(api) => s.client == Idle && (api.Reset? ==> 1 <= api.threads <= UINT_MAX)
    case ClientGo(wake) =>
      && s.client != Idle && s.client != Gone && !s.client.WaitAsleep?
      && (s.client.Spawning? ==> s.client.next < |s.ws|)
      && (s.client.Pushing? ==> s.client.rest != [])
      && (s.client.Notifying? ==> WakeOk(s.ws, wake))
      && (s.client.Joining? ==> s.client.next < |s.ws| && s.ws[s.client.next] == Exited)
    case ClientSpurious => s.client.WaitAsleep?
    case WorkerGo(w, wake) =>
      && w < |s.ws|
      && s.ws[w] != Unstarted && s.ws[w] != Sleeping && s.ws[w] != Exited
      && (s.ws[w].TaskNotify? ==> WakeOk(s.ws, wake))
    case WorkerSubmit(w, job) => w < |s.ws| && s.ws[w].Exec?
    case WorkerSpurious(w) => w < |s.ws| && s.ws[w] == Sleeping
  }

  function Next(s: State, a: Action): State
    requires Enabled(s, a)
  {
    match a
    case ClientCall(api) => CallNext(s, api)
    case ClientGo(wake) => ClientNext(s, wake)
    case ClientSpurious => s.(client := WaitAwake(s.client.why))
    case WorkerGo(w, wake) => WorkerNext(s, w, wake)
    case WorkerSubmit(w, job) => SubmitNext(s, job).(ws := s.ws[w := TaskNotify(s.ws[w].id)])
    case WorkerSpurious(w) => s.(ws := s.ws[w := Recheck])
  }

  /** One submission: the next number goes to the back of the queue. */
  function SubmitNext(s: State, job: Job): State {
    s.(sh := SubmitRegion(s.sh, |s.h.log|), h := s.h.(log := s.h.log + [job]))
  }

  function CallNext(s: State, api: Api): State {
    match api
    case Detach(jobs) =>
      s.(client := if jobs == [] then Idle else Pushing(jobs), h := s.h.(past := s.h.past + [s.h.call], call := DetachCall(jobs, [])))
    case Pause => s.(sh := PauseRegion(s.sh, true))
    case Unpause => s.(sh := PauseRegion(s.sh, false), client := Unpausing)
    case Purge => s.(sh := PurgeRegion(s.sh), h := s.h.(purged := s.h.purged + s.sh.tasks))
    case Wait => s.(client := WaitEntry(UserWait))
    case Destruct => s.(client := WaitEntry(DtorWait))
    case Reset(n) => s.(sh := PauseRegion(s.sh, true), client := WaitEntry(ResetWait(n, s.sh.paused)))
  }

  function AfterWait(why: Purpose): ClientPc {
    match why
    case UserWait => Idle
    case DtorWait => Stopping(Destroy)
    case ResetWait(n, was) => Stopping(Recreate(n, was))
  }

  function AfterSpawning(restore: Option<bool>): ClientPc {
    if restore.Some? then Restoring(restore.value) else Idle
  }

  function AfterJoining(then_: Then): ClientPc {
    if then_.Recreate? then Creating(then_.threads, Some(then_.was)) else Gone
  }

  function ClientNext(s: State, wake: Option<nat>): State
    requires Enabled(s, ClientGo(wake))
  {
    match s.client
    case Creating(n, restore) => s.(sh := CreateRegion(s.sh, n), ws := Fresh(n), client := Spawning(0, restore))
    case Spawning(k, restore) =>
      s.(ws := s.ws[k := Init],
         client := if k + 1 == |s.ws| then AfterSpawning(restore) else Spawning(k + 1, restore))
    case Restoring(was) =>
      var s' := s.(sh := PauseRegion(s.sh, was), client := Idle);
      s'.(mute := !was && HasSleeper(s.ws) && |s.sh.tasks| > Headed(s.ws))
    case Pushing(rest) =>
      var s' := SubmitNext(s, rest[0]);
      s'.(client := Notifying(rest[1..]), h := s'.h.(call := s.h.call.(batch := s.h.call.batch + [|s.h.log|])))
    case Notifying(rest) => s.(ws := WakeOne(s.ws, wake), client := if rest == [] then Idle else Pushing(rest))
    case Unpausing => s.(ws := WakeAll(s.ws), client := Idle, mute := false)
    case WaitEntry(why) => WaitNext(s, why)
    case WaitAwake(why) => WaitNext(s, why)
    case Stopping(then_) => s.(sh := StopRegion(s.sh), client := StopNotify(then_))
    case StopNotify(then_) => s.(ws := WakeAll(s.ws), client := Joining(0, then_))
    case Joining(k, then_) => s.(client := if k + 1 == |s.ws| then AfterJoining(then_) else Joining(k + 1, then_))
    case _ => s
  }

  function WaitNext(s: State, why: Purpose): State {
    s.(sh := WaitRegion(s.sh), client := if Done(s.sh) then AfterWait(why) else WaitAsleep(why))
  }

  function WorkerNext(s: State, w: nat, wake: Option<nat>): State
    requires Enabled(s, WorkerGo(w, wake))
  {
    match s.ws[w]
    case Init => s.(sh := DecrementRegion(s.sh), ws := s.ws[w := ReadWaiting])
    case Exec(id) => s.(ws := s.ws[w := Finished], h := s.h.(finished := s.h.finished + [id]))
    case TaskNotify(id) => s.(ws := WakeOne(s.ws, wake)[w := Exec(id)])
    case Finished => s.(sh := DecrementRegion(s.sh), ws := s.ws[w := ReadWaiting])
    case ReadWaiting => s.(ws := s.ws[w := if s.sh.waiting then ReadRunning else Recheck])
    case ReadRunning => s.(ws := s.ws[w := if s.sh.running == 0 then ReadPaused else Recheck])
    case ReadPaused => s.(ws := s.ws[w := if s.sh.paused then NotifyDone else ReadEmpty])
    case ReadEmpty => s.(ws := s.ws[w := if s.sh.tasks == [] then NotifyDone else Recheck])
    case NotifyDone =>
      s.(ws := s.ws[w := Recheck],
         client := if s.client.WaitAsleep? then WaitAwake(s.client.why) else s.client)
    case Recheck => TakeNext(s, w)
    case _ => s
  }

  function TakeNext(s: State, w: nat): State
    requires w < |s.ws|
  {
    match TakeDecision(s.sh)
    case Sleep => s.(ws := s.ws[w := Sleeping])
    case Quit => s.(ws := s.ws[w := Exited])
    case Take(id) =>
      s.(sh := TakeRegion(s.sh), ws := s.ws[w := Exec(id)], h := s.h.(started := s.h.started + [id]))
  }

  // ---------- counting workers ----------

  function Sum(ws: seq<WorkerPc>, f: WorkerPc -> nat): nat {
    if ws == [] then 0 else f(ws[0]) + Sum(ws[1..], f)
  }

  /** 1 for a worker that counts in `tasks_running`. */
  function BusyBit(pc: WorkerPc): nat {
    if pc == Unstarted || pc == Init || pc.Exec? || pc.TaskNotify? || pc == Finished then 1 else 0
  }

  /** 1 for a worker that will look at the queue before it can sleep, or that owes a notify_one. */
  function HeadedBit(pc: WorkerPc): nat { if pc == Recheck || pc.TaskNotify? then 1 else 0 }

  function Busy(ws: seq<WorkerPc>): nat { Sum(ws, BusyBit) }

  function Headed(ws: seq<WorkerPc>): nat { Sum(ws, HeadedBit) }

  /** 1 for a worker inside task() with this id. */
  function HoldBit(id: nat): WorkerPc -> nat {
    (pc: WorkerPc) => if (pc.Exec? || pc.TaskNotify?) && pc.id == id then 1 else 0
  }

  /** How many workers are executing this task right now. */
  function Holding(ws: seq<WorkerPc>, id: nat): nat { Sum(ws, HoldBit(id)) }

  // ---------- runs ----------

  /** `states` and `acts` form a run: every act is enabled where it happens and leads to the next state. */
  ghost predicate Run(states: seq<State>, acts: seq<Action>) {
    && |states| == |acts| + 1
    && forall i :: 0 <= i < |acts| ==> Enabled(states[i], acts[i]) && states[i + 1] == Next(states[i], acts[i])
  }
}
