/** What holds in every state of every run of the pool. */
module PoolTheorems {
  import opened Common
  import opened PoolModel
  import opened PoolControl
  import opened PoolCounts
  import opened PoolTasks

  // ---- the invariant ----

  /** A joiner asleep on a finished task has its signal still coming. */
  ghost predicate JoinersHeard(s: Pool) {
    forall c :: 0 <= c < |s.clients| && s.clients[c].JoinBlocked? ==>
      var t := s.clients[c].task;
      t < |s.tasks| && s.tasks[t].status.Finished? ==> Signal(t) in s.workers
  }

  ghost predicate Inv(s: Pool) {
    Control(s) && Counts(s) && Tasks(s) && JoinersHeard(s)
  }

  lemma WorkerKeepsHeard(s: Pool, i: nat, value: int, wake: Option<nat>)
    requires Tasks(s) && JoinersHeard(s) && WorkerEnabled(s, i, wake)
    ensures JoinersHeard(WorkerStep(s, i, value, wake))
  {
    hide Places, RecordOk, HoldsValue, MutexMoves;
    var s' := WorkerStep(s, i, value, wake);
    WorkerStepMoves(s, i, value, wake);
    forall c | 0 <= c < |s'.clients| && s'.clients[c].JoinBlocked?
      ensures var t := s'.clients[c].task;
        t < |s'.tasks| && s'.tasks[t].status.Finished? ==> Signal(t) in s'.workers
    {
      assert s'.clients[c] == s.clients[c];
      var t := s.clients[c].task;
      assert ClientKnows(s, c, s.clients[c]);
      if s.workers[i].Signal? && wake.Some? {
        assert ClientKnows(s, wake.value, s.clients[wake.value]);
      }
      if t < |s'.tasks| && s'.tasks[t].status.Finished? {
        if s.tasks[t].status.Finished? {
          var j :| 0 <= j < |s.workers| && s.workers[j] == Signal(t);
          if j == i {
            assert false;
          } else {
            assert s'.workers[j] == Signal(t);
          }
        } else {
          assert s'.workers[i] == Signal(t);
        }
      }
    }
  }

  lemma ClientKeepsHeard(s: Pool, c: nat, wake: Option<nat>)
    requires JoinersHeard(s) && ClientEnabled(s, c, wake)
    ensures JoinersHeard(ClientStep(s, c, wake))
  {
    var s' := ClientStep(s, c, wake);
    ClientStepMoves(s, c, wake);
    forall d | 0 <= d < |s'.clients| && s'.clients[d].JoinBlocked?
      ensures var t := s'.clients[d].task;
        t < |s'.tasks| && s'.tasks[t].status.Finished? ==> Signal(t) in s'.workers
    {
      var t := s'.clients[d].task;
      if d != c && t < |s'.tasks| && s'.tasks[t].status.Finished? {
        var j :| 0 <= j < |s.workers| && s.workers[j] == Signal(t);
        assert s'.workers[j] == Signal(t);
      }
    }
  }

  lemma OtherKeepsHeard(s: Pool, a: Action)
    requires Tasks(s) && JoinersHeard(s) && Enabled(s, a) && !a.WorkerAct? && !a.ClientAct?
    ensures JoinersHeard(Apply(s, a))
  {
    var s' := Apply(s, a);
    forall d | 0 <= d < |s'.clients| && s'.clients[d].JoinBlocked?
      ensures var t := s'.clients[d].task;
        t < |s'.tasks| && s'.tasks[t].status.Finished? ==> Signal(t) in s'.workers
    {
      assert s'.clients[d] == s.clients[d];
      assert ClientKnows(s, d, s.clients[d]);
      var t := s.clients[d].task;
      if t < |s.tasks| && s.tasks[t].status.Finished? {
        var j :| 0 <= j < |s.workers| && s.workers[j] == Signal(t);
        assert s'.workers[j] == Signal(t);
      }
    }
  }

  lemma InvInductive(s: Pool, a: Action)
    requires Inv(s) && Enabled(s, a)
    ensures Inv(Apply(s, a))
  {
    ControlInductive(s, a);
    CountsInductive(s, a);
    TasksInductive(s, a);
    match a
    case WorkerAct(i, value, wake) => WorkerKeepsHeard(s, i, value, wake);
    case ClientAct(c, wake) => ClientKeepsHeard(s, c, wake);
    case _ => OtherKeepsHeard(s, a);
  }

  lemma InvInitially(s: Pool)
    requires Initial(s)
    ensures Inv(s)
  {
    CountZero(Notifying, s.clients);
  }

  lemma {:induction false} InvAfter(s: Pool, schedule: seq<Action>)
    requires Inv(s) && After(s, schedule).Some?
    ensures Inv(After(s, schedule).value)
  {
    if schedule != [] {
      var last := |schedule| - 1;
      InvAfter(s, schedule[..last]);
      InvInductive(After(s, schedule[..last]).value, schedule[last]);
    }
  }

  /** The invariant holds in every state of every run. */
  lemma InvAlways(s: Pool)
    requires Reachable(s)
    ensures Inv(s)
  {
    var s0, schedule :| Initial(s0) && After(s0, schedule) == Some(s);
    InvInitially(s0);
    InvAfter(s0, schedule);
  }

  // ---- no lost wakeup ----

  /** While a task is queued, somebody is on the way: a pusher that has yet to signal, or a
      worker that is awake. Between critical sections that worker thread exists. */
  lemma NoLostWakeup(s: Pool)
    requires Reachable(s) && s.queue != []
    ensures
      && ((exists i :: 0 <= i < |s.workers| && !s.workers[i].Blocked? && !s.workers[i].Exited?)
          || (exists c :: 0 <= c < |s.clients| && Notifying(s.clients[c])))
      && (!s.mutex.ByClient? ==> s.workers != [])
  {
    InvAlways(s);
    CountZero(Notifying, s.clients);
    CountAtMost(Asleep, s.workers);
    if forall i :: 0 <= i < |s.workers| ==> s.workers[i].Blocked? || s.workers[i].Exited? {
      forall i | 0 <= i < |s.workers| ensures s.workers[i].Blocked? {
        assert WorkerOk(s, s.workers[i]);
      }
      CountZero(Idle, s.workers);
      CountZero(Asleep, s.workers);
      if s.workers == [] {
        assert Notifying(s.clients[s.mutex.client]);
      } else {
        assert Asleep(s.workers[0]);
      }
    }
  }

  /** The pool is work conserving: once the owed signals are delivered and every awake
      worker has looked, a task is still queued only if every worker is executing one. */
  lemma WorkConserving(s: Pool)
    requires Reachable(s) && s.queue != []
    requires forall c :: 0 <= c < |s.clients| ==> !Notifying(s.clients[c])
    requires forall i :: 0 <= i < |s.workers| ==> !Idle(s.workers[i])
    ensures s.workers != []
    ensures forall i :: 0 <= i < |s.workers| ==> WorksOn(s.workers[i]).Some?
  {
    InvAlways(s);
    CountZero(Notifying, s.clients);
    CountZero(Idle, s.workers);
    CountZero(Asleep, s.workers);
    forall i | 0 <= i < |s.workers| ensures WorksOn(s.workers[i]).Some? {
      assert WorkerOk(s, s.workers[i]);
      assert !Asleep(s.workers[i]);
    }
  }

  /** A joiner is never stranded: the task it sleeps on is on its way through the pool, or
      its signal is on its way, or the caller joined a task that is already joined. */
  lemma JoinerNotStranded(s: Pool, c: nat)
    requires Reachable(s) && c < |s.clients| && s.clients[c].JoinBlocked?
    ensures var t := s.clients[c].task;
      && t < |s.tasks|
      && (s.tasks[t].status.Joined?
          || Signal(t) in s.workers
          || t in s.queue
          || exists i :: 0 <= i < |s.workers| && WorksOn(s.workers[i]) == Some(t))
  {
    InvAlways(s);
    assert ClientKnows(s, c, s.clients[c]);
    var t := s.clients[c].task;
    assert RecordOk(s, t) && TaskPlace(s, t, s.tasks[t].place);
  }

  lemma CannotMove(s: Pool, i: nat)
    requires Inv(s) && i < |s.workers|
    requires forall wake :: !WorkerEnabled(s, i, wake)
    ensures var w := s.workers[i];
      w.Blocked? || w.Exited? || ((w.Lock? || w.Woken?) && !s.mutex.Free?)
  {
    var w := s.workers[i];
    assert WorkerPlace(s, i, w) && WorkerOk(s, w);
    if w.Signal? {
      if wake :| 0 <= wake < |s.clients| && s.clients[wake] == JoinBlocked(w.task) {
        assert WorkerEnabled(s, i, Some(wake));
      } else {
        assert WorkerEnabled(s, i, None);
      }
    } else {
      assert !WorkerEnabled(s, i, None);
    }
  }

  /** A thread that cannot move is asleep, done, or waits for a mutex somebody holds. */
  lemma OnlyWaitersWait(s: Pool, i: nat)
    requires Reachable(s) && i < |s.workers|
    requires forall wake :: !WorkerEnabled(s, i, wake)
    ensures var w := s.workers[i];
      w.Blocked? || w.Exited? || ((w.Lock? || w.Woken?) && !s.mutex.Free?)
  {
    InvAlways(s);
    CannotMove(s, i);
  }

  // ---- exactly once ----

  /** The workers that have taken task t and not run it yet. */
  ghost function HoldersOf(s: Pool, t: TaskId): set<int> {
    set i | 0 <= i < |s.workers| && Holding(s.workers[i]) && WorksOn(s.workers[i]) == Some(t)
  }

  lemma {:induction false} OnceInQueue(q: seq<TaskId>, t: TaskId, k: nat)
    requires k < |q| && q[k] == t && forall j :: 0 <= j < |q| && q[j] == t ==> j == k
    ensures multiset(q)[t] == 1
  {
    assert q == q[..k] + [t] + q[k + 1..];
    assert t !in q[..k] && t !in q[k + 1..];
  }

  /** Every push of a task is accounted for exactly once: still queued, taken by a worker,
      or run. At most one push of a task is outstanding. */
  lemma ExactlyOnce(s: Pool, t: TaskId)
    requires Reachable(s) && t < |s.tasks|
    ensures
      && s.tasks[t].pushes == multiset(s.queue)[t] + |HoldersOf(s, t)| + s.tasks[t].runs
      && multiset(s.queue)[t] + |HoldersOf(s, t)| <= 1
  {
    InvAlways(s);
    assert RecordOk(s, t) && TaskPlace(s, t, s.tasks[t].place);
    forall i | i in HoldersOf(s, t) ensures s.tasks[t].place == AtWorker(i) {
      assert WorkerPlace(s, i, s.workers[i]);
    }
    forall j | 0 <= j < |s.queue| && s.queue[j] == t ensures s.tasks[t].place == InQueue(j) {
    }
    match s.tasks[t].place
    case InQueue(j) =>
      OnceInQueue(s.queue, t, j);
      assert HoldersOf(s, t) == {};
    case AtWorker(i) =>
      assert t !in s.queue;
      if Holding(s.workers[i]) {
        assert HoldersOf(s, t) == {i as int};
      } else {
        assert HoldersOf(s, t) == {};
      }
    case _ =>
      assert t !in s.queue;
      assert HoldersOf(s, t) == {};
  }

  /** The same in total, and what the two counters of the pool mean. */
  lemma CountersMeanWhatTheySay(s: Pool)
    requires Reachable(s)
    ensures
      && s.pushes == |s.queue| + Count(Holding, s.workers) + s.runs
      && s.inProgress == Count(InProgress, s.workers)
      && 0 <= s.inProgress <= |s.workers| <= s.maxThreads <= TPOOL_MAX_THREADS
  {
    InvAlways(s);
    CountAtMost(InProgress, s.workers);
  }

  /** A successful join returns what the latest push of the task computed, after every push
      of the task has been run. */
  lemma JoinReturnsLatest(s: Pool, c: nat)
    requires Reachable(s) && c < |s.clients|
    requires s.clients[c].Ready? && s.clients[c].last.JoinedWith?
    ensures var JoinedWith(t, v) := s.clients[c].last;
      && t < |s.tasks|
      && s.tasks[t].returned == Some(v)
      && s.tasks[t].runs == s.tasks[t].pushes
      && s.tasks[t].status.Joined?
  {
    InvAlways(s);
    assert ClientKnows(s, c, s.clients[c]);
    assert RecordOk(s, s.clients[c].last.task);
  }

  // ---- overshoot of the unlocked capacity check ----

  ghost predicate Bounded(s: Pool, n: nat) {
    |s.queue| + Count(Passed, s.clients) <= TPOOL_MAX_TASKS + n - 1
  }

  lemma ClientMoved(cs: seq<ClientPc>, c: nat, pc: ClientPc)
    requires c < |cs|
    ensures Count(Passed, cs[c := pc]) == Count(Passed, cs) - Bit(Passed(cs[c])) + Bit(Passed(pc))
  {
    CountUpdate(Passed, cs, c, pc);
  }

  lemma WorkerKeepsBounded(s: Pool, i: nat, value: int, wake: Option<nat>, n: nat)
    requires n > 0 && Bounded(s, n) && WorkerEnabled(s, i, wake)
    ensures Bounded(WorkerStep(s, i, value, wake), n)
  {
    if s.workers[i].Signal? && wake.Some? {
      ClientMoved(s.clients, wake.value, JoinLock(s.workers[i].task));
    }
  }

  lemma ClientKeepsBounded(s: Pool, c: nat, wake: Option<nat>, n: nat)
    requires n > 0 && Bounded(s, n) && ClientEnabled(s, c, wake)
    requires Count(Pushing, ClientStep(s, c, wake).clients) <= n
    ensures Bounded(ClientStep(s, c, wake), n)
  {
    hide ClientStep, ClientEnabled, Passed;
    var s' := ClientStep(s, c, wake);
    ClientStepPassed(s, c, wake);
    ClientMoved(s.clients, c, s'.clients[c]);
    PassedArePushing(s'.clients);
  }

  lemma PassedArePushing(cs: seq<ClientPc>)
    ensures Count(Passed, cs) <= Count(Pushing, cs)
  {
    CountMonotone(Passed, Pushing, cs);
  }

  /** Only a check that finds room lets another client pass, and only one that has passed
      inserts. */
  lemma ClientStepPassed(s: Pool, c: nat, wake: Option<nat>)
    requires ClientEnabled(s, c, wake)
    ensures var s' := ClientStep(s, c, wake);
      && c < |s.clients| && |s'.clients| == |s.clients| && s'.clients == s.clients[c := s'.clients[c]]
      && (|| |s'.queue| + Bit(Passed(s'.clients[c])) == |s.queue| + Bit(Passed(s.clients[c]))
          || (s'.queue == s.queue && |s.queue| < TPOOL_MAX_TASKS))
  {
  }

  lemma BoundedInductive(s: Pool, a: Action, n: nat)
    requires n > 0 && Bounded(s, n) && Enabled(s, a)
    requires Count(Pushing, Apply(s, a).clients) <= n
    ensures Bounded(Apply(s, a), n)
  {
    match a
    case WorkerAct(i, value, wake) => WorkerKeepsBounded(s, i, value, wake, n);
    case WorkerSpurious(i) =>
    case ClientAct(c, wake) => ClientKeepsBounded(s, c, wake, n);
    case _ => ClientMoved(s.clients, a.c, Apply(s, a).clients[a.c]);
  }

  /** With at most n pushes under way at any time of a run, the queue holds at most
      TPOOL_MAX_TASKS + n - 1 tasks; a single pusher never exceeds the maximum. */
  lemma {:induction false} BoundedOvershoot(s0: Pool, schedule: seq<Action>, n: nat)
    requires Initial(s0) && After(s0, schedule).Some? && n > 0
    requires forall j :: 0 <= j <= |schedule| && After(s0, schedule[..j]).Some? ==>
      Count(Pushing, After(s0, schedule[..j]).value.clients) <= n
    ensures var s := After(s0, schedule).value;
      |s.queue| + Count(Passed, s.clients) <= TPOOL_MAX_TASKS + n - 1
  {
    if schedule == [] {
      CountZero(Passed, s0.clients);
    } else {
      var last := |schedule| - 1;
      var before := schedule[..last];
      forall j | 0 <= j <= last ensures before[..j] == schedule[..j] {
      }
      BoundedOvershoot(s0, before, n);
      assert schedule[..|schedule|] == schedule;
      BoundedInductive(After(s0, before).value, schedule[last], n);
    }
  }

  // ---- deletion ----

  /** When thread_pool_delete has returned 0, every thread has exited and the function of
      every pushed task has returned, although the two counters are not read together. */
  lemma DeleteIsQuiescent(s: Pool, c: nat)
    requires Reachable(s) && c < |s.clients| && s.clients[c].DelDone?
    ensures
      && s.queue == []
      && (forall i :: 0 <= i < |s.workers| ==> s.workers[i].Exited?)
      && (forall t :: 0 <= t < |s.tasks| ==> s.tasks[t].runs == s.tasks[t].pushes)
      && s.runs == s.pushes
  {
    InvAlways(s);
    assert ClientOk(s, s.clients[c]);
    CountZero(Holding, s.workers);
    forall t | 0 <= t < |s.tasks| ensures s.tasks[t].runs == s.tasks[t].pushes {
      assert RecordOk(s, t) && TaskPlace(s, t, s.tasks[t].place);
    }
  }

  /** The task a position of a worker speaks of. */
  function Names(w: WorkerPc): Option<TaskId> {
    if w.Signal? then Some(w.task) else Attached(w)
  }

  /** No task is freed twice. A freed task has run as often as it was pushed, is not queued,
      and no call is about it; the one position that may still name it is the signal of a
      worker (159). */
  lemma FreedAtMostOnce(s: Pool, t: TaskId)
    requires Reachable(s) && t < |s.tasks|
    ensures
      && s.tasks[t].frees <= 1
      && (s.tasks[t].frees == 1 ==>
            && t !in s.queue
            && (forall i :: 0 <= i < |s.workers| && Names(s.workers[i]) == Some(t) ==> s.workers[i] == Signal(t))
            && (forall c :: 0 <= c < |s.clients| ==> About(s.clients[c]) != Some(t))
            && s.tasks[t].runs == s.tasks[t].pushes)
  {
    InvAlways(s);
    assert RecordOk(s, t);
    if s.tasks[t].frees == 1 {
      forall i | 0 <= i < |s.workers| ensures Attached(s.workers[i]) != Some(t) {
        assert WorkerPlace(s, i, s.workers[i]);
      }
      forall c | 0 <= c < |s.clients| ensures About(s.clients[c]) != Some(t) {
        assert ClientKnows(s, c, s.clients[c]);
      }
    }
  }

  predicate WasDetached(rec: Task) {
    rec.release.DetachedFinished? || rec.release.DetachedInPool? || rec.release.DetachedOutside?
  }

  /** Once a detached task is neither queued nor with a worker nor about to be freed by its
      owner, it has been run to the end and freed, by exactly one of the worker and the
      detacher, if and only if it had not already been joined when it was detached. */
  lemma DetachedIsFreedOnce(s: Pool, t: TaskId)
    requires Reachable(s) && t < |s.tasks| && WasDetached(s.tasks[t])
    requires t !in s.queue && forall i :: 0 <= i < |s.workers| ==> Attached(s.workers[i]) != Some(t)
    requires forall c :: 0 <= c < |s.clients| ==> s.clients[c] != DetachFree(t)
    ensures s.tasks[t].frees == 1 <==> !s.tasks[t].release.DetachedOutside?
    ensures s.tasks[t].frees <= 1 && s.tasks[t].runs == s.tasks[t].pushes
  {
    InvAlways(s);
    assert RecordOk(s, t) && TaskPlace(s, t, s.tasks[t].place);
  }
}
