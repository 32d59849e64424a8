/** Concrete runs of the pool that reach the three situations the theorems single out. The
    pool has at most one thread, one client and one task; each lemma takes the run a few steps
    further. */
module PoolRuns {
  import opened Common
  import opened PoolModel

  lemma ReachableStep(s: Pool, a: Action)
    requires Reachable(s) && Enabled(s, a)
    ensures Reachable(Apply(s, a))
  {
    var s0, schedule :| Initial(s0) && After(s0, schedule) == Some(s);
    assert (schedule + [a])[..|schedule|] == schedule;
    assert After(s0, schedule + [a]) == Some(Apply(s, a));
  }

  lemma Go(s: Pool, a: Action, s': Pool)
    requires Reachable(s) && Enabled(s, a) && Apply(s, a) == s'
    ensures Reachable(s')
  {
    ReachableStep(s, a);
  }

  /** A pool of at most one thread, one client and one task: the states of the run below. */
  function Small(workers: seq<WorkerPc>, client: ClientPc, queue: seq<TaskId>, inProgress: int, mutex: Holder,
      task: Task): Pool {
    Pool(1, queue, inProgress, false, mutex, workers, [client], [task], task.pushes, task.runs)
  }

  const QUEUED: Task := Task(Waiting, 0, 0, Owned, InQueue(0), 1, 0, 0, None)
  const TAKEN: Task := QUEUED.(place := AtWorker(0))
  const DONE: Task := Task(Status.Finished, 0, 0, Owned, Out, 1, 1, 0, Some(0))

  lemma TaskIsNew() returns (s: Pool)
    ensures Reachable(s) && s == Small([], Ready(Success), [], 0, Free, FreshTask(0))
  {
    hide WorkerStep, WorkerEnabled, ClientStep, ClientEnabled;
    var s0 := NewPool(1, 1).value;
    assert Initial(s0) && After(s0, []) == Some(s0);
    s := Small([], Ready(Success), [], 0, Free, FreshTask(0));
    Go(s0, NewTask(0), s);
  }

  lemma PushBegins() returns (s: Pool)
    ensures Reachable(s) && s == Small([], PushLock(0), [], 0, Free, FreshTask(0))
  {
    hide WorkerStep, WorkerEnabled, Reachable;
    var s1 := TaskIsNew();
    var s2 := s1.(clients := [PushCheck(0)]);
    Go(s1, Invoke(0, Push(0)), s2);
    s := s1.(clients := [PushLock(0)]);
    Go(s2, ClientAct(0, None), s);
  }

  lemma PushInserts() returns (s: Pool)
    ensures Reachable(s) && s == Small([], PushSpawn(0), [0], 0, ByClient(0), QUEUED)
  {
    hide WorkerStep, WorkerEnabled, Reachable;
    var s0 := PushBegins();
    var s1 := Small([], PushInsert(0), [], 0, ByClient(0), FreshTask(0));
    Go(s0, ClientAct(0, None), s1);
    var s2 := Small([], PushStatus(0), [0], 0, ByClient(0), QUEUED.(status := Created));
    Go(s1, ClientAct(0, None), s2);
    s := Small([], PushSpawn(0), [0], 0, ByClient(0), QUEUED);
    Go(s2, ClientAct(0, None), s);
  }

  lemma PushReturns() returns (s: Pool)
    ensures Reachable(s) && s == Small([Lock], Ready(Success), [0], 0, Free, QUEUED)
  {
    hide WorkerStep, WorkerEnabled, Reachable;
    var s0 := PushInserts();
    var s1 := Small([Lock], PushUnlock(0), [0], 0, ByClient(0), QUEUED);
    Go(s0, ClientAct(0, None), s1);
    var s2 := Small([Lock], PushSignal(0), [0], 0, Free, QUEUED);
    Go(s1, ClientAct(0, None), s2);
    s := Small([Lock], Ready(Success), [0], 0, Free, QUEUED);
    Go(s2, ClientAct(0, None), s);
  }

  lemma WorkerPops() returns (s: Pool)
    ensures Reachable(s) && s == Small([CountUp(0)], Ready(Success), [], 0, ByWorker(0), TAKEN)
  {
    hide ClientStep, ClientEnabled, Reachable;
    var s0 := PushReturns();
    var s1 := Small([Check], Ready(Success), [0], 0, ByWorker(0), QUEUED);
    Go(s0, WorkerAct(0, 0, None), s1);
    var s2 := Small([Leave], Ready(Success), [0], 0, ByWorker(0), QUEUED);
    Go(s1, WorkerAct(0, 0, None), s2);
    var s3 := Small([Pop], Ready(Success), [0], 0, ByWorker(0), QUEUED);
    Go(s2, WorkerAct(0, 0, None), s3);
    s := Small([CountUp(0)], Ready(Success), [], 0, ByWorker(0), TAKEN);
    Go(s3, WorkerAct(0, 0, None), s);
  }

  lemma WorkerRuns() returns (s: Pool)
    ensures Reachable(s) && s == Small([Run(0)], Ready(Success), [], 1, Free, TAKEN.(status := Running))
  {
    hide ClientStep, ClientEnabled, Reachable;
    var s0 := WorkerPops();
    var s1 := Small([Unlock(Some(0))], Ready(Success), [], 1, ByWorker(0), TAKEN);
    Go(s0, WorkerAct(0, 0, None), s1);
    var s2 := Small([Start(0)], Ready(Success), [], 1, Free, TAKEN);
    Go(s1, WorkerAct(0, 0, None), s2);
    s := Small([Run(0)], Ready(Success), [], 1, Free, TAKEN.(status := Running));
    Go(s2, WorkerAct(0, 0, None), s);
  }

  lemma WorkerReturns() returns (s: Pool)
    ensures Reachable(s) && s == Small([Signal(0)], Ready(Success), [], 0, Free, DONE)
  {
    hide ClientStep, ClientEnabled, Reachable;
    var s0 := WorkerRuns();
    var s1 := Small([Finish(0, 0)], Ready(Success), [], 1, Free, TAKEN.(status := Running, runs := 1,
      returned := Some(0)));
    Go(s0, WorkerAct(0, 0, None), s1);
    s := Small([Signal(0)], Ready(Success), [], 0, Free, DONE);
    Go(s1, WorkerAct(0, 0, None), s);
  }

  lemma WorkerFinishes() returns (s: Pool)
    ensures Reachable(s) && s == Small([Lock], Ready(Success), [], 0, Free, DONE)
  {
    hide ClientStep, ClientEnabled, Reachable;
    var s0 := WorkerReturns();
    s := Small([Lock], Ready(Success), [], 0, Free, DONE);
    Go(s0, WorkerAct(0, 0, None), s);
  }

  lemma DeleterStarts() returns (s: Pool)
    ensures Reachable(s) && s == Small([Check], DelInProgress, [], 0, ByWorker(0), DONE)
  {
    var s0 := WorkerFinishes();
    var s1 := Small([Check], Ready(Success), [], 0, ByWorker(0), DONE);
    Go(s0, WorkerAct(0, 0, None), s1);
    s := Small([Check], DelInProgress, [], 0, ByWorker(0), DONE);
    Go(s1, Invoke(0, DeletePool), s);
  }

  lemma DeleterPasses() returns (s: Pool)
    ensures Reachable(s) && s == Small([Check], DelFlag, [], 0, ByWorker(0), DONE)
  {
    hide WorkerStep, WorkerEnabled, Reachable;
    var s0 := DeleterStarts();
    var s1 := Small([Check], DelQueue, [], 0, ByWorker(0), DONE);
    Go(s0, ClientAct(0, None), s1);
    s := Small([Check], DelFlag, [], 0, ByWorker(0), DONE);
    Go(s1, ClientAct(0, None), s);
  }

  /** A broadcast with a worker between its check and its wait does happen: BroadcastMissed
      is not vacuous, and thread_pool_delete may hang. */
  lemma MissedBroadcastIsReachable() returns (s: Pool)
    ensures Reachable(s) && |s.clients| == 1 && s.clients[0].DelBroadcast?
    ensures |s.workers| == 1 && s.workers[0].BeforeWait?
  {
    var s0 := DeleterPasses();
    var s1 := Small([BeforeWait], DelFlag, [], 0, ByWorker(0), DONE);
    Go(s0, WorkerAct(0, 0, None), s1);
    s := s1.(clients := [DelBroadcast], isDeleted := true);
    Go(s1, ClientAct(0, None), s);
  }

  // ---- what can follow a join ----

  const JOINED: Task := DONE.(status := Joined)

  /** The client joins the task while the worker is at w. */
  lemma TaskIsJoined(w: WorkerPc, s0: Pool) returns (s: Pool)
    requires Reachable(s0) && s0 == Small([w], Ready(Success), [], 0, Free, DONE)
    ensures Reachable(s) && s == Small([w], Ready(JoinedWith(0, 0)), [], 0, Free, JOINED)
  {
    hide WorkerStep, WorkerEnabled, Reachable;
    var s1 := Small([w], JoinRead(0), [], 0, Free, DONE);
    Go(s0, Invoke(0, Join(0)), s1);
    var s2 := Small([w], JoinLock(0), [], 0, Free, DONE);
    Go(s1, ClientAct(0, None), s2);
    var s3 := Small([w], JoinTake(0), [], 0, Free, DONE);
    Go(s2, ClientAct(0, None), s3);
    var s4 := Small([w], JoinMark(0, 0), [], 0, Free, DONE);
    Go(s3, ClientAct(0, None), s4);
    s := Small([w], Ready(JoinedWith(0, 0)), [], 0, Free, JOINED);
    Go(s4, ClientAct(0, None), s);
  }

  /** A task that was joined before it is detached is never freed: DetachedIsFreedOnce does
      not hold without its condition. */
  lemma DetachAfterJoinIsReachable() returns (s: Pool)
    ensures Reachable(s) && |s.tasks| == 1 && s.tasks[0].release.DetachedOutside? && s.tasks[0].frees == 0
  {
    hide WorkerStep, WorkerEnabled, Reachable;
    s := WorkerFinishes();
    var s0 := TaskIsJoined(Lock, s);
    var s1 := Small([Lock], DetachRead(0), [], 0, Free, JOINED);
    Go(s0, Invoke(0, Detach(0)), s1);
    var s2 := Small([Lock], DetachLock(0), [], 0, Free, JOINED);
    Go(s1, ClientAct(0, None), s2);
    s := Small([Lock], Ready(Success), [], 0, Free, JOINED.(status := Detached, release := DetachedOutside));
    Go(s2, ClientAct(0, None), s);
  }
  /** A worker may still signal the `completed` condition of a task that its owner has joined
      and deleted in the meantime. */
  lemma SignalAfterFreeIsReachable() returns (s: Pool)
    ensures Reachable(s) && |s.workers| == 1 && s.workers[0] == Signal(0)
    ensures |s.tasks| == 1 && s.tasks[0].frees == 1
  {
    hide WorkerStep, WorkerEnabled, Reachable;
    s := WorkerReturns();
    var s0 := TaskIsJoined(Signal(0), s);
    var s1 := Small([Signal(0)], DropTask(0), [], 0, Free, JOINED);
    Go(s0, Invoke(0, Drop(0)), s1);
    s := Small([Signal(0)], Ready(Success), [], 0, Free, JOINED.(frees := 1, release := Deleted));
    Go(s1, ClientAct(0, None), s);
  }
}
