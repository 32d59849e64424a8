/** The thread pool of 4/thread_pool.c as a protocol of steps.

    Every worker thread and every client thread has a program counter. One step is one
    access to an atomic, one wait or signal, or one critical section under a task's own
    mutex; the pool mutex is explicit, because counters guarded by it are also read and
    written without it. Line numbers refer to 4/thread_pool.c. */
module PoolModel {
  import opened Common

  const TPOOL_MAX_TASKS: nat := 100000
  const TPOOL_MAX_THREADS: nat := 20

  type TaskId = nat

  datatype Status = Running | Waiting | Joined | Finished | Created | Detached

  datatype Error = InvalidArgument | TooManyTasks | HasTasks | TaskNotPushed | TaskInPool | Timeout

  /** How the owner gave a task up, if it did. */
  datatype Release = Owned | Deleted | DetachedFinished | DetachedInPool | DetachedOutside

  /** Where a pushed task is: history, never read by the code. */
  datatype Place = Out | InQueue(index: nat) | AtWorker(worker: nat) | FreedBy(worker: nat)

  /** `status` and `result` are the fields of struct thread_task. The rest is history:
      the owning client, how often the task was pushed, run and freed, and what its
      function returned in its latest run (None from a push until that run ends). */
  datatype Task = Task(
    status: Status,
    result: int,
    owner: nat,
    release: Release,
    place: Place,
    pushes: nat,
    runs: nat,
    frees: nat,
    returned: Option<int>)

  datatype WorkerPc =
    | Lock                                // 117
    | Check                               // 119, mutex held
    | BeforeWait                          // 120, mutex held
    | Blocked                             // 120, asleep, mutex released
    | Woken                               // 120, reacquiring the mutex
    | Leave                               // 123, mutex held
    | Pop                                 // 129-131, mutex held
    | CountUp(task: TaskId)               // 132, mutex held
    | Unlock(popped: Option<TaskId>)      // 135, mutex held
    | Start(task: TaskId)                 // 138-142
    | Run(task: TaskId)                   // 144
    | Finish(task: TaskId, value: int)    // 146-158
    | Signal(task: TaskId)                // 159
    | FreeTask(task: TaskId)              // 153
    | ExitUnlock                          // 124, mutex held
    | Exited                              // 163

  /** What a client's latest call returned. */
  datatype Outcome = Nothing | Success | JoinedWith(task: TaskId, value: int) | Failed(error: Error)

  datatype ClientPc =
    | Ready(last: Outcome)
    | PushCheck(task: TaskId)             // 174
    | PushLock(task: TaskId)              // 178
    | PushInsert(task: TaskId)            // 180, mutex held
    | PushStatus(task: TaskId)            // 181, mutex held
    | PushSpawn(task: TaskId)             // 183-187, mutex held
    | PushUnlock(task: TaskId)            // 189, mutex held
    | PushSignal(task: TaskId)            // 190
    | JoinRead(task: TaskId)              // 228
    | JoinLock(task: TaskId)              // 232-235
    | JoinBlocked(task: TaskId)           // 235, asleep
    | JoinTake(task: TaskId)              // 240
    | JoinMark(task: TaskId, value: int)  // 241
    | DetachRead(task: TaskId)            // 317
    | DetachLock(task: TaskId)            // 321-333
    | DetachFree(task: TaskId)            // 326
    | DropTask(task: TaskId)              // 298-308
    | DelInProgress                       // 86, first read
    | DelQueue                            // 86, second read
    | DelFlag                             // 90
    | DelBroadcast                        // 91
    | DelJoin(next: nat)                  // 93-95
    | DelDone                             // 104

  datatype Holder = Free | ByWorker(worker: nat) | ByClient(client: nat)

  /** The pool, its threads and every task ever created. `threads_count` is |workers|,
      `tasks_count` is |queue|. pushes and runs count successful insertions and returned
      task functions over the whole life of the pool. */
  datatype Pool = Pool(
    maxThreads: nat,
    queue: seq<TaskId>,
    inProgress: int,
    isDeleted: bool,
    mutex: Holder,
    workers: seq<WorkerPc>,
    clients: seq<ClientPc>,
    tasks: seq<Task>,
    pushes: nat,
    runs: nat)

  datatype Call = Push(task: TaskId) | Join(task: TaskId) | Detach(task: TaskId) | Drop(task: TaskId) | DeletePool

  /** Who moves, and how the scheduler and the condition variables resolve the choices:
      the value a task function returns and the sleeper a signal wakes. A call of
      thread_task_timed_join (246-292) is a join that may time out while it waits; with a
      timeout of zero it does so at once. */
  datatype Action =
    | WorkerAct(i: nat, value: int, wake: Option<nat>)
    | WorkerSpurious(i: nat)
    | ClientAct(c: nat, wake: Option<nat>)
    | ClientSpurious(c: nat)
    | TimeOut(c: nat)
    | Invoke(c: nat, call: Call)
    | NewTask(c: nat)

  // ---- classes of program counters ----

  predicate HoldsMutex(w: WorkerPc) {
    w.Check? || w.BeforeWait? || w.Leave? || w.Pop? || w.CountUp? || w.Unlock? || w.ExitUnlock?
  }

  predicate ClientHoldsMutex(c: ClientPc) {
    c.PushInsert? || c.PushStatus? || c.PushSpawn? || c.PushUnlock?
  }

  /** The task a worker has taken and not yet finished with, lines 132-158. */
  function WorksOn(w: WorkerPc): Option<TaskId> {
    match w
    case CountUp(t) => Some(t)
    case Unlock(ot) => ot
    case Start(t) => Some(t)
    case Run(t) => Some(t)
    case Finish(t, _) => Some(t)
    case _ => None
  }

  /** Between lines 132 and 148: counted by `tasks_in_progress_count`. */
  predicate InProgress(w: WorkerPc) {
    (w.Unlock? && w.popped.Some?) || w.Start? || w.Run? || w.Finish?
  }

  /** Holds a task whose function has not returned yet. */
  predicate Holding(w: WorkerPc) {
    WorksOn(w).Some? && !w.Finish?
  }

  predicate Asleep(w: WorkerPc) {
    w.Blocked?
  }

  /** Awake without a task: on its way to look at the queue. */
  predicate Idle(w: WorkerPc) {
    !WorksOn(w).Some? && !w.Blocked? && !w.Exited?
  }

  /** Between the insertion (180) and the signal (190). */
  predicate Notifying(c: ClientPc) {
    c.PushStatus? || c.PushSpawn? || c.PushUnlock? || c.PushSignal?
  }

  /** Passed the unlocked capacity check (174), not yet inserted (180). */
  predicate Passed(c: ClientPc) {
    c.PushLock? || c.PushInsert?
  }

  predicate Pushing(c: ClientPc) {
    c.PushCheck? || Passed(c) || Notifying(c)
  }

  predicate Deleting(c: ClientPc) {
    c.DelInProgress? || c.DelQueue? || c.DelFlag? || PastFlag(c)
  }

  /** After the store to `is_deleted` (90). */
  predicate PastFlag(c: ClientPc) {
    c.DelBroadcast? || c.DelJoin? || c.DelDone?
  }

  // ---- steps ----

  function WorkerAt(s: Pool, i: nat, pc: WorkerPc): Pool
    requires i < |s.workers|
  {
    s.(workers := s.workers[i := pc])
  }

  function ClientAt(s: Pool, c: nat, pc: ClientPc): Pool
    requires c < |s.clients|
  {
    s.(clients := s.clients[c := pc])
  }

  function SetTask(s: Pool, t: TaskId, rec: Task): Pool
    requires t < |s.tasks|
  {
    s.(tasks := s.tasks[t := rec])
  }

  /** Whether `wake` is a legal answer of pthread_cond_signal on `available`: some sleeping
      worker, or nobody when no worker sleeps. */
  predicate WakesWorker(s: Pool, wake: Option<nat>) {
    match wake
    case Some(j) => j < |s.workers| && s.workers[j].Blocked?
    case None => forall j :: 0 <= j < |s.workers| ==> !s.workers[j].Blocked?
  }

  /** The same for a signal on the `completed` condition of task t. */
  predicate WakesJoiner(s: Pool, t: TaskId, wake: Option<nat>) {
    match wake
    case Some(c) => c < |s.clients| && s.clients[c] == JoinBlocked(t)
    case None => forall c :: 0 <= c < |s.clients| ==> s.clients[c] != JoinBlocked(t)
  }

  /** Lines 107-164. */
  predicate WorkerEnabled(s: Pool, i: nat, wake: Option<nat>) {
    i < |s.workers| &&
    match s.workers[i]
    case Lock => s.mutex.Free?
    case Woken => s.mutex.Free?
    case Blocked => false
    case Exited => false
    case Start(t) => t < |s.tasks|
    case Run(t) => t < |s.tasks|
    case Finish(t, _) => t < |s.tasks|
    case FreeTask(t) => t < |s.tasks|
    case Signal(t) => WakesJoiner(s, t, wake)
    case Pop => s.queue != [] ==> s.queue[|s.queue| - 1] < |s.tasks|
    case _ => true
  }

  function WorkerStep(s: Pool, i: nat, value: int, wake: Option<nat>): Pool
    requires WorkerEnabled(s, i, wake)
  {
    match s.workers[i]
    case Lock => WorkerAt(s, i, Check).(mutex := ByWorker(i))
    case Woken => WorkerAt(s, i, Check).(mutex := ByWorker(i))
    case Check => WorkerAt(s, i, if s.queue == [] && !s.isDeleted then BeforeWait else Leave)
    case BeforeWait => WorkerAt(s, i, Blocked).(mutex := Free)
    case Leave => WorkerAt(s, i, if s.isDeleted then ExitUnlock else Pop)
    case Pop =>
      if s.queue == [] then WorkerAt(s, i, Unlock(None))
      else
        var t := s.queue[|s.queue| - 1];
        WorkerAt(SetTask(s, t, s.tasks[t].(place := AtWorker(i))), i, CountUp(t)).(queue := s.queue[..|s.queue| - 1])
    case CountUp(t) => WorkerAt(s, i, Unlock(Some(t))).(inProgress := s.inProgress + 1)
    case Unlock(ot) =>
      WorkerAt(s, i, match ot case Some(t) => Start(t) case None => Lock).(mutex := Free)
    case Start(t) =>
      var rec := s.tasks[t];
      WorkerAt(SetTask(s, t, if rec.status.Detached? then rec else rec.(status := Running)), i, Run(t))
    case Run(t) =>
      var rec := s.tasks[t];
      WorkerAt(SetTask(s, t, rec.(runs := rec.runs + 1, returned := Some(value))), i, Finish(t,
        value)).(runs := s.runs + 1)
    case Finish(t, v) =>
      var rec := s.tasks[t].(result := v);
      var s' := s.(inProgress := s.inProgress - 1);
      if rec.status.Detached? then
        WorkerAt(SetTask(s', t, rec.(status := Joined, place := FreedBy(i))), i, FreeTask(t))
      else
        WorkerAt(SetTask(s', t, rec.(status := Finished, place := Out)), i, Signal(t))
    case Signal(t) =>
      var s' := WorkerAt(s, i, Lock);
      if wake.Some? then ClientAt(s', wake.value, JoinLock(t)) else s'
    case FreeTask(t) =>
      var rec := s.tasks[t];
      // thread_task_delete, 298: only a created or joined task is freed.
      var rec' := if rec.status.Created? || rec.status.Joined? then rec.(frees := rec.frees + 1) else rec;
      WorkerAt(SetTask(s, t, rec'.(place := Out)), i, Lock)
    case ExitUnlock => WorkerAt(s, i, Exited).(mutex := Free)
  }

  /** Lines 166-193, 224-244, 294-335 and 78-105. */
  predicate ClientEnabled(s: Pool, c: nat, wake: Option<nat>) {
    c < |s.clients| &&
    match s.clients[c]
    case Ready(_) => false
    case JoinBlocked(_) => false
    case DelDone => false
    case PushLock(_) => s.mutex.Free?
    case PushSignal(_) => WakesWorker(s, wake)
    case DelJoin(k) => k < |s.workers| ==> s.workers[k].Exited?
    case PushInsert(t) => t < |s.tasks|
    case PushStatus(t) => t < |s.tasks|
    case JoinRead(t) => t < |s.tasks|
    case JoinLock(t) => t < |s.tasks|
    case JoinTake(t) => t < |s.tasks|
    case JoinMark(t, _) => t < |s.tasks|
    case DetachRead(t) => t < |s.tasks|
    case DetachLock(t) => t < |s.tasks|
    case DetachFree(t) => t < |s.tasks|
    case DropTask(t) => t < |s.tasks|
    case _ => true
  }

  function ClientStep(s: Pool, c: nat, wake: Option<nat>): Pool
    requires ClientEnabled(s, c, wake)
  {
    match s.clients[c]
    case PushCheck(t) => ClientAt(s, c,
        if |s.queue| >= TPOOL_MAX_TASKS then Ready(Failed(TooManyTasks)) else PushLock(t))
    case PushLock(t) => ClientAt(s, c, PushInsert(t)).(mutex := ByClient(c))
    case PushInsert(t) =>
      var rec := s.tasks[t];
      ClientAt(SetTask(s, t, rec.(place := InQueue(|s.queue|), pushes := rec.pushes + 1, returned := None)), c,
        PushStatus(t))
      .(queue := s.queue + [t], pushes := s.pushes + 1)
    case PushStatus(t) => ClientAt(SetTask(s, t, s.tasks[t].(status := Waiting)), c, PushSpawn(t))
    case PushSpawn(t) =>
      var s' := ClientAt(s, c, PushUnlock(t));
      if s.maxThreads > |s.workers| && s.inProgress == |s.workers| then s'.(workers := s.workers + [Lock]) else s'
    case PushUnlock(t) => ClientAt(s, c, PushSignal(t)).(mutex := Free)
    case PushSignal(t) =>
      var s' := ClientAt(s, c, Ready(Success));
      if wake.Some? then WorkerAt(s', wake.value, Woken) else s'
    case JoinRead(t) => ClientAt(s, c, if s.tasks[t].status.Created? then Ready(Failed(TaskNotPushed)) else JoinLock(t))
    case JoinLock(t) => ClientAt(s, c, if s.tasks[t].status.Finished? then JoinTake(t) else JoinBlocked(t))
    case JoinTake(t) => ClientAt(s, c, JoinMark(t, s.tasks[t].result))
    case JoinMark(t, v) => ClientAt(SetTask(s, t, s.tasks[t].(status := Joined)), c, Ready(JoinedWith(t, v)))
    case DetachRead(t) => ClientAt(s, c,
        if s.tasks[t].status.Created? then Ready(Failed(TaskNotPushed)) else DetachLock(t))
    case DetachLock(t) =>
      var rec := s.tasks[t];
      if rec.status.Finished? then
        ClientAt(SetTask(s, t, rec.(status := Joined, release := DetachedFinished)), c, DetachFree(t))
      else
        var r := if rec.status.Joined? then DetachedOutside else DetachedInPool;
        ClientAt(SetTask(s, t, rec.(status := Detached, release := r)), c, Ready(Success))
    case DetachFree(t) =>
      var rec := s.tasks[t];
      var rec' := if rec.status.Created? || rec.status.Joined? then rec.(frees := rec.frees + 1) else rec;
      ClientAt(SetTask(s, t, rec'), c, Ready(Success))
    case DropTask(t) =>
      var rec := s.tasks[t];
      if rec.status.Created? || rec.status.Joined? then
        ClientAt(SetTask(s, t, rec.(frees := rec.frees + 1, release := Deleted)), c, Ready(Success))
      else
        ClientAt(s, c, Ready(Failed(TaskInPool)))
    case DelInProgress => ClientAt(s, c, if s.inProgress > 0 then Ready(Failed(HasTasks)) else DelQueue)
    case DelQueue => ClientAt(s, c, if |s.queue| > 0 then Ready(Failed(HasTasks)) else DelFlag)
    case DelFlag => ClientAt(s, c, DelBroadcast).(isDeleted := true)
    case DelBroadcast => ClientAt(s, c, DelJoin(0)).(workers := WakeAll(s.workers))
    case DelJoin(k) => ClientAt(s, c, if k < |s.workers| then DelJoin(k + 1) else DelDone)
  }

  /** pthread_cond_broadcast on `available`. */
  function WakeAll(ws: seq<WorkerPc>): seq<WorkerPc> {
    seq(|ws|, i requires 0 <= i < |ws| => if ws[i].Blocked? then Woken else ws[i])
  }

  /** What the documentation asks of callers: a task is used by its one owner and not after
      it was given up; only a created or joined task is pushed; pushes and the deletion of
      the pool do not overlap, and the pool is deleted once. */
  predicate MayInvoke(s: Pool, c: nat, call: Call) {
    c < |s.clients| && s.clients[c].Ready? &&
    if call.DeletePool? then
      !s.isDeleted && forall d :: 0 <= d < |s.clients| ==> !Pushing(s.clients[d]) && !Deleting(s.clients[d])
    else
      && call.task < |s.tasks|
      && s.tasks[call.task].owner == c
      && s.tasks[call.task].release.Owned?
      && (call.Push? ==>
            && (s.tasks[call.task].status.Created? || s.tasks[call.task].status.Joined?)
            && !s.isDeleted
            && forall d :: 0 <= d < |s.clients| ==> !Deleting(s.clients[d]))
  }

  function FirstStep(call: Call): ClientPc {
    match call
    case Push(t) => PushCheck(t)
    case Join(t) => JoinRead(t)
    case Detach(t) => DetachRead(t)
    case Drop(t) => DropTask(t)
    case DeletePool => DelInProgress
  }

  /** thread_task_new, lines 195-208. */
  function FreshTask(owner: nat): Task {
    Task(Created, 0, owner, Owned, Out, 0, 0, 0, None)
  }

  predicate Enabled(s: Pool, a: Action) {
    match a
    case WorkerAct(i, _, wake) => WorkerEnabled(s, i, wake)
    case WorkerSpurious(i) => i < |s.workers| && s.workers[i].Blocked?
    case ClientAct(c, wake) => ClientEnabled(s, c, wake)
    case ClientSpurious(c) => c < |s.clients| && s.clients[c].JoinBlocked?
    case TimeOut(c) => c < |s.clients| && s.clients[c].JoinBlocked?
    case Invoke(c, call) => MayInvoke(s, c, call)
    case NewTask(c) => c < |s.clients| && s.clients[c].Ready?
  }

  function Apply(s: Pool, a: Action): Pool
    requires Enabled(s, a)
  {
    match a
    case WorkerAct(i, value, wake) => WorkerStep(s, i, value, wake)
    case WorkerSpurious(i) => WorkerAt(s, i, Woken)
    case ClientAct(c, wake) => ClientStep(s, c, wake)
    case ClientSpurious(c) => ClientAt(s, c, JoinLock(s.clients[c].task))
    case TimeOut(c) => ClientAt(s, c, Ready(Failed(Timeout)))
    case Invoke(c, call) => ClientAt(s, c, FirstStep(call))
    case NewTask(c) => ClientAt(s, c, Ready(Success)).(tasks := s.tasks + [FreshTask(c)])
  }

  // ---- runs ----

  /** thread_pool_new, lines 33-69, for n client threads. */
  function NewPool(maxThreads: int, n: nat): Option<Pool> {
    if maxThreads <= 0 || maxThreads > TPOOL_MAX_THREADS then None
    else Some(Pool(maxThreads, [], 0, false, Free, [], seq(n, _ => Ready(Nothing)), [], 0, 0))
  }

  ghost predicate Initial(s: Pool) {
    exists maxThreads: int, n: nat :: NewPool(maxThreads, n) == Some(s)
  }

  /** Where a schedule leads from s, if each of its actions is possible when its turn comes. */
  function After(s: Pool, schedule: seq<Action>): Option<Pool> {
    if schedule == [] then Some(s)
    else
      var last := |schedule| - 1;
      match After(s, schedule[..last])
      case None => None
      case Some(s') => if Enabled(s', schedule[last]) then Some(Apply(s', schedule[last])) else None
  }

  /** The states of all runs. */
  ghost predicate Reachable(s: Pool) {
    exists s0, schedule :: Initial(s0) && After(s0, schedule) == Some(s)
  }
}
