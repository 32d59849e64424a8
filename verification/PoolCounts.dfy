/** Counting threads: the counter of running tasks, the tasks in flight, and the wakeups
    that are owed to queued work. A step changes each count by what the position it leaves
    and the position it enters contribute to it. */
module PoolCounts {
  import opened Common
  import opened PoolModel
  import opened PoolControl

  /** Every pushed task is queued, with a worker, or has run. */
  ghost predicate Conserved(s: Pool) {
    s.pushes == |s.queue| + Count(Holding, s.workers) + s.runs
  }

  /** Awake idle workers plus owed signals cover the queued tasks, as far as there are
      workers without a task at all. */
  ghost predicate WakeupsOwed(s: Pool) {
    Count(Idle, s.workers) + Count(Notifying, s.clients)
      >= Min(|s.queue|, Count(Idle, s.workers) + Count(Asleep, s.workers))
  }

  ghost predicate Counts(s: Pool) {
    CounterOk(s) && Conserved(s) && WakeupsOwed(s)
  }

  function Bit(b: bool): nat {
    if b then 1 else 0
  }

  /** The four counts after worker i moved. */
  lemma WorkerMoved(ws: seq<WorkerPc>, i: nat, w: WorkerPc)
    requires i < |ws|
    ensures Count(InProgress, ws[i := w]) == Count(InProgress, ws) - Bit(InProgress(ws[i])) + Bit(InProgress(w))
    ensures Count(Holding, ws[i := w]) == Count(Holding, ws) - Bit(Holding(ws[i])) + Bit(Holding(w))
    ensures Count(Idle, ws[i := w]) == Count(Idle, ws) - Bit(Idle(ws[i])) + Bit(Idle(w))
    ensures Count(Asleep, ws[i := w]) == Count(Asleep, ws) - Bit(Asleep(ws[i])) + Bit(Asleep(w))
  {
    CountUpdate(InProgress, ws, i, w);
    CountUpdate(Holding, ws, i, w);
    CountUpdate(Idle, ws, i, w);
    CountUpdate(Asleep, ws, i, w);
  }

  /** Waking everybody turns sleepers into idle workers and touches no other count. */
  lemma {:induction false} Woke(ws: seq<WorkerPc>)
    ensures Count(InProgress, WakeAll(ws)) == Count(InProgress, ws)
    ensures Count(Holding, WakeAll(ws)) == Count(Holding, ws)
  {
    if ws != [] {
      Woke(ws[..|ws| - 1]);
      assert WakeAll(ws)[..|ws| - 1] == WakeAll(ws[..|ws| - 1]);
    }
  }

  lemma WorkerStepWorkers(s: Pool, i: nat, value: int, wake: Option<nat>)
    requires WorkerEnabled(s, i, wake)
    ensures var s' := WorkerStep(s, i, value, wake);
      && s'.workers == s.workers[i := s'.workers[i]]
      && Count(Notifying, s'.clients) == Count(Notifying, s.clients)
  {
    if s.workers[i].Signal? && wake.Some? {
      CountUpdate(Notifying, s.clients, wake.value, JoinLock(s.workers[i].task));
    }
  }

  /** What worker i's move does to the counter and the history, by the class of its position
      before (w) and after (w'). */
  predicate RunsBalance(s: Pool, s': Pool, w: WorkerPc, w': WorkerPc) {
    && s'.inProgress - s.inProgress == Bit(InProgress(w')) - Bit(InProgress(w))
    && |s'.queue| + Bit(Holding(w')) + s'.runs == |s.queue| + Bit(Holding(w)) + s.runs
    && s'.pushes == s.pushes
  }

  /** What it does to the wakeups owed. */
  predicate QueueBalance(s: Pool, s': Pool, w: WorkerPc, w': WorkerPc) {
    || s'.queue == []
    || (s'.queue == s.queue && Asleep(w') == Asleep(w) && (Idle(w) ==> Idle(w')))
    || (|s'.queue| == |s.queue| - 1 && Asleep(w') == Asleep(w) && Idle(w) && !Idle(w'))
  }

  lemma LoopStepRuns(s: Pool, i: nat, value: int, wake: Option<nat>)
    requires WorkerEnabled(s, i, wake) && WorkerOk(s, s.workers[i]) && Idle(s.workers[i])
    ensures var s' := WorkerStep(s, i, value, wake); RunsBalance(s, s', s.workers[i], s'.workers[i])
  {
  }

  lemma TakeStepRuns(s: Pool, i: nat, value: int, wake: Option<nat>)
    requires WorkerEnabled(s, i, wake) && !Idle(s.workers[i]) && !s.workers[i].Run? && !s.workers[i].Finish?
    ensures var s' := WorkerStep(s, i, value, wake); RunsBalance(s, s', s.workers[i], s'.workers[i])
  {
  }

  lemma TaskStepRuns(s: Pool, i: nat, value: int, wake: Option<nat>)
    requires WorkerEnabled(s, i, wake) && (s.workers[i].Run? || s.workers[i].Finish?)
    ensures var s' := WorkerStep(s, i, value, wake); RunsBalance(s, s', s.workers[i], s'.workers[i])
  {
  }

  lemma WorkerStepRuns(s: Pool, i: nat, value: int, wake: Option<nat>)
    requires WorkerEnabled(s, i, wake) && WorkerOk(s, s.workers[i])
    ensures var s' := WorkerStep(s, i, value, wake); RunsBalance(s, s', s.workers[i], s'.workers[i])
  {
    hide WorkerStep, RunsBalance, WorkerOk, Idle;
    if Idle(s.workers[i]) {
      LoopStepRuns(s, i, value, wake);
    } else if !s.workers[i].Run? && !s.workers[i].Finish? {
      TakeStepRuns(s, i, value, wake);
    } else {
      TaskStepRuns(s, i, value, wake);
    }
  }

  lemma WorkerStepQueue(s: Pool, i: nat, value: int, wake: Option<nat>)
    requires WorkerEnabled(s, i, wake) && WorkerOk(s, s.workers[i]) && (s.isDeleted ==> s.queue == [])
    ensures var s' := WorkerStep(s, i, value, wake); QueueBalance(s, s', s.workers[i], s'.workers[i])
  {
  }

  lemma BalanceKeepsCounts(s: Pool, s': Pool, i: nat)
    requires Counts(s) && i < |s.workers| && |s'.workers| == |s.workers|
    requires s'.workers == s.workers[i := s'.workers[i]]
    requires Count(Notifying, s'.clients) == Count(Notifying, s.clients)
    requires RunsBalance(s, s', s.workers[i], s'.workers[i]) && QueueBalance(s, s', s.workers[i], s'.workers[i])
    ensures Counts(s')
  {
    WorkerMoved(s.workers, i, s'.workers[i]);
  }

  lemma WorkerKeepsCounts(s: Pool, i: nat, value: int, wake: Option<nat>)
    requires Control(s) && Counts(s) && WorkerEnabled(s, i, wake)
    ensures Counts(WorkerStep(s, i, value, wake))
  {
    ControlAt(s, i, wake);
    WorkerStepWorkers(s, i, value, wake);
    WorkerStepRuns(s, i, value, wake);
    WorkerStepQueue(s, i, value, wake);
    BalanceKeepsCounts(s, WorkerStep(s, i, value, wake), i);
  }

  lemma SignalKeepsCounts(s: Pool, c: nat, wake: Option<nat>)
    requires Counts(s) && ClientEnabled(s, c, wake) && s.clients[c].PushSignal?
    ensures Counts(ClientStep(s, c, wake))
  {
    CountUpdate(Notifying, s.clients, c, Ready(Success));
    if wake.Some? {
      WorkerMoved(s.workers, wake.value, Woken);
    } else {
      CountZero(Asleep, s.workers);
    }
  }

  lemma SpawnKeepsCounts(s: Pool, c: nat, wake: Option<nat>)
    requires Counts(s) && ClientEnabled(s, c, wake) && s.clients[c].PushSpawn?
    ensures Counts(ClientStep(s, c, wake))
  {
    CountUpdate(Notifying, s.clients, c, PushUnlock(s.clients[c].task));
    CountAppend(InProgress, s.workers, Lock);
    CountAppend(Holding, s.workers, Lock);
    CountAppend(Idle, s.workers, Lock);
    CountAppend(Asleep, s.workers, Lock);
  }

  lemma BroadcastKeepsCounts(s: Pool, c: nat, wake: Option<nat>)
    requires Control(s) && Counts(s) && ClientEnabled(s, c, wake) && s.clients[c].DelBroadcast?
    ensures Counts(ClientStep(s, c, wake))
  {
    assert ClientOk(s, s.clients[c]);
    Woke(s.workers);
  }

  /** The other client steps leave workers alone; a task comes into the queue together with the
      debt of a signal. */
  lemma PlainStep(s: Pool, c: nat, wake: Option<nat>)
    requires ClientEnabled(s, c, wake)
    requires !s.clients[c].PushSignal? && !s.clients[c].PushSpawn? && !s.clients[c].DelBroadcast?
    ensures PlainBalance(s, ClientStep(s, c, wake), c)
  {
  }

  predicate PlainBalance(s: Pool, s': Pool, c: nat)
    requires c < |s.clients|
  {
    && |s'.clients| == |s.clients| && s'.clients == s.clients[c := s'.clients[c]]
    && s'.workers == s.workers && s'.inProgress == s.inProgress && s'.runs == s.runs
    && s'.pushes - s.pushes == |s'.queue| - |s.queue|
    && |s'.queue| >= |s.queue|
    && |s'.queue| - |s.queue| == Bit(Notifying(s'.clients[c])) - Bit(Notifying(s.clients[c]))
  }

  lemma PlainKeepsCounts(s: Pool, s': Pool, c: nat)
    requires Counts(s) && c < |s.clients| && PlainBalance(s, s', c)
    ensures Counts(s')
  {
    CountUpdate(Notifying, s.clients, c, s'.clients[c]);
  }

  lemma ClientKeepsCounts(s: Pool, c: nat, wake: Option<nat>)
    requires Control(s) && Counts(s) && ClientEnabled(s, c, wake)
    ensures Counts(ClientStep(s, c, wake))
  {
    hide ClientStep, Counts;
    if s.clients[c].PushSignal? {
      SignalKeepsCounts(s, c, wake);
    } else if s.clients[c].PushSpawn? {
      SpawnKeepsCounts(s, c, wake);
    } else if s.clients[c].DelBroadcast? {
      BroadcastKeepsCounts(s, c, wake);
    } else {
      PlainStep(s, c, wake);
      PlainKeepsCounts(s, ClientStep(s, c, wake), c);
    }
  }

  lemma OtherKeepsCounts(s: Pool, a: Action)
    requires Counts(s) && Enabled(s, a) && !a.WorkerAct? && !a.ClientAct?
    ensures Counts(Apply(s, a))
  {
    if a.WorkerSpurious? {
      WorkerMoved(s.workers, a.i, Woken);
    } else {
      CountUpdate(Notifying, s.clients, a.c, Apply(s, a).clients[a.c]);
    }
  }

  /** Every step keeps the counts. */
  lemma CountsInductive(s: Pool, a: Action)
    requires Control(s) && Counts(s) && Enabled(s, a)
    ensures Counts(Apply(s, a))
  {
    match a
    case WorkerAct(i, value, wake) => WorkerKeepsCounts(s, i, value, wake);
    case ClientAct(c, wake) => ClientKeepsCounts(s, c, wake);
    case _ => OtherKeepsCounts(s, a);
  }
}
