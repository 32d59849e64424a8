/** Who holds the pool mutex, what a worker knows about the queue inside its critical
    section, and what the deletion of the pool excludes. */
module PoolControl {
  import opened Common
  import opened PoolModel

  ghost predicate MutexOk(s: Pool) {
    && (forall i :: 0 <= i < |s.workers| && HoldsMutex(s.workers[i]) ==> s.mutex == ByWorker(i))
    && (forall c :: 0 <= c < |s.clients| && ClientHoldsMutex(s.clients[c]) ==> s.mutex == ByClient(c))
    && (s.mutex.ByWorker? ==> s.mutex.worker < |s.workers| && HoldsMutex(s.workers[s.mutex.worker]))
    && (s.mutex.ByClient? ==> s.mutex.client < |s.clients| && ClientHoldsMutex(s.clients[s.mutex.client]))
  }

  /** What one worker's position says about the queue and the deletion flag. */
  ghost predicate WorkerOk(s: Pool, w: WorkerPc) {
    && (w.BeforeWait? ==> s.queue == [])
    && (w.Leave? ==> s.queue != [] || s.isDeleted)
    && (w.Pop? ==> s.queue != [])
    && (w.Unlock? ==> w.popped.Some?)
    && (w.ExitUnlock? || w.Exited? ==> s.isDeleted)
  }

  /** What one client's position says about the deletion of the pool. */
  ghost predicate ClientOk(s: Pool, c: ClientPc) {
    && (PastFlag(c) ==> s.isDeleted)
    && (c.DelFlag? ==> s.queue == [])
    && (Pushing(c) ==> !s.isDeleted)
    && (c.DelJoin? ==> c.next <= |s.workers| && forall i :: 0 <= i < c.next ==> s.workers[i].Exited?)
    && (c.DelDone? ==> forall i :: 0 <= i < |s.workers| ==> s.workers[i].Exited?)
  }

  /** While the pool is being deleted nobody pushes and nobody else deletes. */
  ghost predicate DeleterAlone(s: Pool) {
    forall c, d :: 0 <= c < |s.clients| && 0 <= d < |s.clients| && c != d && Deleting(s.clients[c])
      ==> !Pushing(s.clients[d]) && !Deleting(s.clients[d])
  }

  ghost predicate ThreadsOk(s: Pool) {
    && 0 < s.maxThreads <= TPOOL_MAX_THREADS
    && |s.workers| <= s.maxThreads
    && (s.isDeleted ==> s.queue == [])
    && (s.queue != [] && s.workers == [] ==>
          s.mutex.ByClient? && s.mutex.client < |s.clients|
          && (s.clients[s.mutex.client].PushStatus? || s.clients[s.mutex.client].PushSpawn?))
  }

  ghost predicate Control(s: Pool) {
    && MutexOk(s)
    && (forall i :: 0 <= i < |s.workers| ==> WorkerOk(s, s.workers[i]))
    && (forall c :: 0 <= c < |s.clients| ==> ClientOk(s, s.clients[c]))
    && DeleterAlone(s)
    && ThreadsOk(s)
  }

  /** The counter of running tasks is the number of workers between lines 132 and 148. */
  ghost predicate CounterOk(s: Pool) {
    s.inProgress == Count(InProgress, s.workers)
  }

  // ---- how one step moves threads and the mutex ----

  /** Taking the mutex, giving it back, or leaving it alone, by a thread that held it
      before (`held`) and holds it after (`holds`). */
  predicate MutexMoves(m: Holder, m': Holder, me: Holder, held: bool, holds: bool) {
    || (m' == m && held == holds)
    || (m == Free && m' == me && !held && holds)
    || (held && !holds && m' == Free)
  }

  /** A worker step moves worker i, perhaps wakes one joiner, and moves the mutex. */
  ghost predicate WorkerMoves(s: Pool, s': Pool, i: nat) {
    && i < |s.workers| && |s'.workers| == |s.workers| && |s'.clients| == |s.clients|
    && (forall j :: 0 <= j < |s.workers| && j != i ==> s'.workers[j] == s.workers[j])
    && (forall c :: 0 <= c < |s.clients| ==>
          s'.clients[c] == s.clients[c] || (s.clients[c].JoinBlocked? && s'.clients[c] == JoinLock(s.clients[c].task)))
    && MutexMoves(s.mutex, s'.mutex, ByWorker(i), HoldsMutex(s.workers[i]), HoldsMutex(s'.workers[i]))
    && s'.isDeleted == s.isDeleted && s'.maxThreads == s.maxThreads
    && (s'.queue == s.queue || (s.workers[i].Pop? && s.queue != [] && s'.queue == s.queue[..|s.queue| - 1]))
  }

  lemma WorkerStepMutex(s: Pool, i: nat, value: int, wake: Option<nat>)
    requires WorkerEnabled(s, i, wake)
    ensures var s' := WorkerStep(s, i, value, wake);
      MutexMoves(s.mutex, s'.mutex, ByWorker(i), HoldsMutex(s.workers[i]), HoldsMutex(s'.workers[i]))
  {
  }

  lemma WorkerStepMoves(s: Pool, i: nat, value: int, wake: Option<nat>)
    requires WorkerEnabled(s, i, wake)
    ensures WorkerMoves(s, WorkerStep(s, i, value, wake), i)
  {
    hide MutexMoves;
    WorkerStepMutex(s, i, value, wake);
  }

  /** A client step moves client c and the mutex; it may start or wake workers. */
  ghost predicate ClientMoves(s: Pool, s': Pool, c: nat) {
    && c < |s.clients| && |s'.clients| == |s.clients| && |s'.workers| >= |s.workers|
    && (forall d :: 0 <= d < |s.clients| && d != c ==> s'.clients[d] == s.clients[d])
    && (forall j :: 0 <= j < |s.workers| ==>
          s'.workers[j] == s.workers[j] || (s.workers[j].Blocked? && s'.workers[j].Woken?))
    && (forall j :: |s.workers| <= j < |s'.workers| ==> s'.workers[j].Lock?)
    && MutexMoves(s.mutex, s'.mutex, ByClient(c), ClientHoldsMutex(s.clients[c]), ClientHoldsMutex(s'.clients[c]))
    && (Deleting(s'.clients[c]) ==> Deleting(s.clients[c]))
    && (Pushing(s'.clients[c]) ==> Pushing(s.clients[c]))
  }

  lemma ClientStepMutex(s: Pool, c: nat, wake: Option<nat>)
    requires ClientEnabled(s, c, wake)
    ensures var s' := ClientStep(s, c, wake);
      MutexMoves(s.mutex, s'.mutex, ByClient(c), ClientHoldsMutex(s.clients[c]), ClientHoldsMutex(s'.clients[c]))
  {
  }

  lemma ClientStepMoves(s: Pool, c: nat, wake: Option<nat>)
    requires ClientEnabled(s, c, wake)
    ensures ClientMoves(s, ClientStep(s, c, wake), c)
  {
    hide MutexMoves;
    ClientStepMutex(s, c, wake);
  }

  lemma ControlAt(s: Pool, i: nat, wake: Option<nat>)
    requires Control(s) && WorkerEnabled(s, i, wake)
    ensures i < |s.workers| && WorkerOk(s, s.workers[i]) && (s.isDeleted ==> s.queue == [])
  {
  }

  lemma WorkerMovesKeepMutex(s: Pool, s': Pool, i: nat)
    requires MutexOk(s) && WorkerMoves(s, s', i)
    ensures MutexOk(s')
  {
  }

  lemma ClientMovesKeepMutex(s: Pool, s': Pool, c: nat)
    requires MutexOk(s) && ClientMoves(s, s', c)
    ensures MutexOk(s')
  {
  }

  lemma WorkerMovesKeepClients(s: Pool, s': Pool, i: nat)
    requires Control(s) && WorkerMoves(s, s', i)
    requires s.workers[i].Exited? ==> s'.workers[i].Exited?
    ensures forall c :: 0 <= c < |s'.clients| ==> ClientOk(s', s'.clients[c])
    ensures DeleterAlone(s') && ThreadsOk(s')
  {
  }

  lemma ClientMovesKeepAlone(s: Pool, s': Pool, c: nat)
    requires DeleterAlone(s) && ClientMoves(s, s', c)
    ensures DeleterAlone(s')
  {
  }

  lemma WorkerKeepsWorkers(s: Pool, i: nat, value: int, wake: Option<nat>)
    requires Control(s) && WorkerEnabled(s, i, wake)
    ensures var s' := WorkerStep(s, i, value, wake);
      forall j :: 0 <= j < |s'.workers| ==> WorkerOk(s', s'.workers[j])
  {
  }

  lemma ClientKeepsWorkers(s: Pool, c: nat, wake: Option<nat>)
    requires Control(s) && ClientEnabled(s, c, wake)
    ensures var s' := ClientStep(s, c, wake);
      forall j :: 0 <= j < |s'.workers| ==> WorkerOk(s', s'.workers[j])
  {
  }

  lemma ClientKeepsClients(s: Pool, c: nat, wake: Option<nat>)
    requires Control(s) && ClientEnabled(s, c, wake)
    ensures var s' := ClientStep(s, c, wake);
      forall c :: 0 <= c < |s'.clients| ==> ClientOk(s', s'.clients[c])
  {
  }

  lemma ClientKeepsThreads(s: Pool, c: nat, wake: Option<nat>)
    requires Control(s) && CounterOk(s) && ClientEnabled(s, c, wake)
    ensures ThreadsOk(ClientStep(s, c, wake))
  {
  }

  lemma InvokeKeepsControl(s: Pool, c: nat, call: Call)
    requires Control(s) && MayInvoke(s, c, call)
    ensures Control(Apply(s, Invoke(c, call)))
  {
  }

  lemma WorkerKeepsControl(s: Pool, i: nat, value: int, wake: Option<nat>)
    requires Control(s) && WorkerEnabled(s, i, wake)
    ensures Control(WorkerStep(s, i, value, wake))
  {
    var s' := WorkerStep(s, i, value, wake);
    WorkerStepMoves(s, i, value, wake);
    WorkerMovesKeepMutex(s, s', i);
    WorkerKeepsWorkers(s, i, value, wake);
    WorkerMovesKeepClients(s, s', i);
  }

  lemma ClientKeepsControl(s: Pool, c: nat, wake: Option<nat>)
    requires Control(s) && CounterOk(s) && ClientEnabled(s, c, wake)
    ensures Control(ClientStep(s, c, wake))
  {
    var s' := ClientStep(s, c, wake);
    ClientStepMoves(s, c, wake);
    ClientMovesKeepMutex(s, s', c);
    ClientKeepsWorkers(s, c, wake);
    ClientKeepsClients(s, c, wake);
    ClientMovesKeepAlone(s, s', c);
    ClientKeepsThreads(s, c, wake);
  }

  lemma SpuriousKeepsControl(s: Pool, a: Action)
    requires Control(s) && Enabled(s, a) && (a.WorkerSpurious? || a.ClientSpurious? || a.TimeOut?)
    ensures Control(Apply(s, a))
  {
    if a.WorkerSpurious? {
      WakeKeepsControl(s, a.i);
    } else {
      ClientMovesKeepMutex(s, Apply(s, a), a.c);
      ClientMovesKeepAlone(s, Apply(s, a), a.c);
    }
  }

  lemma WakeKeepsControl(s: Pool, i: nat)
    requires Control(s) && Enabled(s, WorkerSpurious(i))
    ensures Control(Apply(s, WorkerSpurious(i)))
  {
    WorkerMovesKeepMutex(s, Apply(s, WorkerSpurious(i)), i);
    WorkerMovesKeepClients(s, Apply(s, WorkerSpurious(i)), i);
  }

  lemma NewTaskKeepsControl(s: Pool, c: nat)
    requires Control(s) && Enabled(s, NewTask(c))
    ensures Control(Apply(s, NewTask(c)))
  {
    ClientMovesKeepMutex(s, Apply(s, NewTask(c)), c);
  }

  /** Every step keeps Control. */
  lemma ControlInductive(s: Pool, a: Action)
    requires Control(s) && CounterOk(s) && Enabled(s, a)
    ensures Control(Apply(s, a))
  {
    match a
    case WorkerAct(i, value, wake) => WorkerKeepsControl(s, i, value, wake);
    case ClientAct(c, wake) => ClientKeepsControl(s, c, wake);
    case Invoke(c, call) => InvokeKeepsControl(s, c, call);
    case WorkerSpurious(i) => SpuriousKeepsControl(s, a);
    case ClientSpurious(c) => SpuriousKeepsControl(s, a);
    case TimeOut(c) => SpuriousKeepsControl(s, a);
    case NewTask(c) => NewTaskKeepsControl(s, c);
  }
}
