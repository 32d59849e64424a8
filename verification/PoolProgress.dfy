/** Queued work is run: how many steps the workers of the pool can still make, and what the
    pool looks like when none of them can move. */
module PoolProgress {
  import opened Common
  import opened PoolModel
  import opened PoolControl
  import opened PoolCounts
  import opened PoolTheorems

  // ---- the work ahead ----

  /** A bound on the steps from position w to the next sleep, exit or pop. */
  function Rank(w: WorkerPc): nat {
    match w
    case CountUp(_) => 10
    case Unlock(_) => 9
    case Start(_) => 8
    case Run(_) => 7
    case Finish(_, _) => 6
    case Signal(_) => 5
    case FreeTask(_) => 5
    case Lock => 4
    case Woken => 4
    case Check => 3
    case Leave => 2
    case Pop => 1
    case BeforeWait => 1
    case ExitUnlock => 1
    case Blocked => 0
    case Exited => 0
  }

  ghost function Ranks(ws: seq<WorkerPc>): nat {
    if ws == [] then 0 else Ranks(ws[..|ws| - 1]) + Rank(ws[|ws| - 1])
  }

  /** A bound on the steps the workers can make on their own. */
  ghost function Work(s: Pool): nat {
    10 * |s.queue| + Ranks(s.workers)
  }

  lemma {:induction false} RanksUpdate(ws: seq<WorkerPc>, i: nat, w: WorkerPc)
    requires i < |ws|
    ensures Ranks(ws[i := w]) == Ranks(ws) - Rank(ws[i]) + Rank(w)
  {
    var last := |ws| - 1;
    if i == last {
      assert ws[i := w][..last] == ws[..last];
    } else {
      assert ws[i := w][..last] == ws[..last][i := w];
      RanksUpdate(ws[..last], i, w);
    }
  }

  /** A broadcast adds at most the way of every worker to the check. */
  lemma {:induction false} RanksWoke(ws: seq<WorkerPc>)
    ensures Ranks(WakeAll(ws)) <= Ranks(ws) + 4 * |ws|
  {
    if ws != [] {
      RanksWoke(ws[..|ws| - 1]);
      assert WakeAll(ws)[..|ws| - 1] == WakeAll(ws[..|ws| - 1]);
    }
  }

  lemma WorkerStepRank(s: Pool, i: nat, value: int, wake: Option<nat>)
    requires WorkerEnabled(s, i, wake) && WorkerOk(s, s.workers[i])
    ensures var s' := WorkerStep(s, i, value, wake);
      10 * |s'.queue| + Rank(s'.workers[i]) < 10 * |s.queue| + Rank(s.workers[i])
  {
  }

  /** Every step of a worker uses up some of the work. */
  lemma WorkerBurns(s: Pool, i: nat, value: int, wake: Option<nat>)
    requires Control(s) && WorkerEnabled(s, i, wake)
    ensures Work(WorkerStep(s, i, value, wake)) < Work(s)
  {
    hide WorkerStep, Control, WorkerEnabled;
    var s' := WorkerStep(s, i, value, wake);
    ControlAt(s, i, wake);
    WorkerStepRank(s, i, value, wake);
    WorkerStepWorkers(s, i, value, wake);
    RanksUpdate(s.workers, i, s'.workers[i]);
  }

  // ---- without new pushes the work is bounded ----

  ghost predicate NobodyPushes(s: Pool) {
    forall c :: 0 <= c < |s.clients| ==> !Pushing(s.clients[c])
  }

  /** No new push and no spurious wakeup of a worker. */
  predicate Calm(a: Action) {
    !a.WorkerSpurious? && !(a.Invoke? && a.call.Push?)
  }

  predicate Waited(c: ClientPc) {
    c.DelJoin? || c.DelDone?
  }

  /** What a broadcast still to come may add. */
  ghost function Alarm(s: Pool): nat {
    if exists c :: 0 <= c < |s.clients| && Waited(s.clients[c]) then 0 else 4 * s.maxThreads
  }

  /** The steps the workers can make while nobody pushes. */
  ghost function Ahead(s: Pool): nat {
    Work(s) + Alarm(s)
  }

  predicate IsWorkerAct(a: Action) {
    a.WorkerAct?
  }

  lemma AlarmKept(s: Pool, s': Pool)
    requires |s'.clients| == |s.clients| && s'.maxThreads == s.maxThreads
    requires forall c :: 0 <= c < |s.clients| && Waited(s.clients[c]) ==> Waited(s'.clients[c])
    ensures Alarm(s') <= Alarm(s)
  {
    if c :| 0 <= c < |s.clients| && Waited(s.clients[c]) {
      assert Waited(s'.clients[c]);
    }
  }

  lemma BroadcastUsesAlarm(s: Pool, c: nat)
    requires Control(s) && c < |s.clients| && s.clients[c].DelBroadcast?
    ensures Ahead(ClientStep(s, c, None)) <= Ahead(s)
  {
    var s' := ClientStep(s, c, None);
    RanksWoke(s.workers);
    assert Waited(s'.clients[c]);
    forall d | 0 <= d < |s.clients| ensures !Waited(s.clients[d]) {
      assert d != c && Waited(s.clients[d]) ==> Deleting(s.clients[d]) && Deleting(s.clients[c]);
    }
  }

  /** Apart from broadcasts, a client that does not push leaves queue and workers alone. */
  lemma ClientLeavesWork(s: Pool, c: nat, wake: Option<nat>)
    requires ClientEnabled(s, c, wake) && !Pushing(s.clients[c]) && !s.clients[c].DelBroadcast?
    ensures var s' := ClientStep(s, c, wake);
      s'.queue == s.queue && s'.workers == s.workers && s'.maxThreads == s.maxThreads
    ensures Waited(s.clients[c]) ==> Waited(ClientStep(s, c, wake).clients[c])
  {
  }

  lemma ClientKeepsAhead(s: Pool, c: nat, wake: Option<nat>)
    requires Control(s) && c < |s.clients| && ClientEnabled(s, c, wake) && !Pushing(s.clients[c])
    ensures Ahead(ClientStep(s, c, wake)) <= Ahead(s)
  {
    hide ClientStep, ClientEnabled, Control;
    if s.clients[c].DelBroadcast? {
      WakeIsIdle(s, c, wake);
      BroadcastUsesAlarm(s, c);
    } else {
      ClientStepMoves(s, c, wake);
      ClientLeavesWork(s, c, wake);
      AlarmKept(s, ClientStep(s, c, wake));
    }
  }

  lemma WakeIsIdle(s: Pool, c: nat, wake: Option<nat>)
    requires ClientEnabled(s, c, wake) && s.clients[c].DelBroadcast?
    ensures ClientStep(s, c, wake) == ClientStep(s, c, None)
  {
  }

  lemma WorkerUsesAhead(s: Pool, i: nat, value: int, wake: Option<nat>)
    requires Control(s) && WorkerEnabled(s, i, wake)
    ensures Ahead(WorkerStep(s, i, value, wake)) < Ahead(s)
  {
    hide WorkerStep, WorkerEnabled, Control;
    WorkerBurns(s, i, value, wake);
    WorkerStepMoves(s, i, value, wake);
    AlarmKept(s, WorkerStep(s, i, value, wake));
  }

  lemma OtherKeepsAhead(s: Pool, a: Action)
    requires Enabled(s, a) && Calm(a) && !a.WorkerAct? && !a.ClientAct?
    ensures Ahead(Apply(s, a)) <= Ahead(s)
  {
    AlarmKept(s, Apply(s, a));
  }

  lemma NobodyPushesKept(s: Pool, a: Action)
    requires Enabled(s, a) && Calm(a) && NobodyPushes(s)
    ensures NobodyPushes(Apply(s, a))
  {
    match a
    case WorkerAct(i, value, wake) => WorkerStepMoves(s, i, value, wake);
    case ClientAct(c, wake) => ClientStepMoves(s, c, wake);
    case _ =>
  }

  lemma CalmStep(s: Pool, a: Action)
    requires Control(s) && Enabled(s, a) && Calm(a) && NobodyPushes(s)
    ensures Ahead(Apply(s, a)) + (if a.WorkerAct? then 1 else 0) <= Ahead(s)
  {
    hide Control, Ahead;
    match a
    case WorkerAct(i, value, wake) => WorkerUsesAhead(s, i, value, wake);
    case ClientAct(c, wake) => ClientKeepsAhead(s, c, wake);
    case _ => OtherKeepsAhead(s, a);
  }

  lemma {:induction false} CalmRun(s: Pool, schedule: seq<Action>)
    requires Inv(s) && NobodyPushes(s) && After(s, schedule).Some?
    requires forall k :: 0 <= k < |schedule| ==> Calm(schedule[k])
    ensures var s' := After(s, schedule).value;
      NobodyPushes(s') && Count(IsWorkerAct, schedule) + Ahead(s') <= Ahead(s)
  {
    hide Ahead, Inv, NobodyPushes, Enabled, Apply;
    if schedule != [] {
      var front, a := schedule[..|schedule| - 1], schedule[|schedule| - 1];
      CalmRun(s, front);
      InvAfter(s, front);
      var s' := After(s, front).value;
      InvHasControl(s');
      CalmStep(s', a);
      NobodyPushesKept(s', a);
    }
  }

  lemma InvHasControl(s: Pool)
    requires Inv(s)
    ensures Control(s)
  {
  }

  // ---- when no worker can move ----

  ghost predicate WorkersRest(s: Pool) {
    forall i, wake :: !WorkerEnabled(s, i, wake)
  }

  /** Without pushers, workers that cannot move are asleep or have exited. */
  lemma RestingWorkers(s: Pool)
    requires Inv(s) && NobodyPushes(s) && WorkersRest(s)
    ensures s.mutex.Free?
    ensures forall i :: 0 <= i < |s.workers| ==> s.workers[i].Blocked? || s.workers[i].Exited?
  {
    if s.mutex.ByWorker? {
      CannotMove(s, s.mutex.worker);
    }
    forall i | 0 <= i < |s.workers| ensures s.workers[i].Blocked? || s.workers[i].Exited? {
      CannotMove(s, i);
    }
  }

  /** Every pushed task has run by the time the workers come to rest. */
  lemma RestIsDone(s: Pool)
    requires Inv(s) && NobodyPushes(s) && WorkersRest(s)
    ensures s.queue == [] && s.runs == s.pushes
  {
    RestingWorkers(s);
    CountZero(Notifying, s.clients);
    CountZero(Idle, s.workers);
    CountZero(Holding, s.workers);
    CountZero(Asleep, s.workers);
  }

  /** Queued work is never stranded: while nobody pushes and no worker wakes spuriously, the
      workers can only make a bounded number of steps, and when none of them can move, every
      task pushed has been run. */
  lemma QueuedWorkRuns(s: Pool, schedule: seq<Action>)
    requires Reachable(s) && NobodyPushes(s) && After(s, schedule).Some?
    requires forall k :: 0 <= k < |schedule| ==> Calm(schedule[k])
    ensures var s' := After(s, schedule).value;
      && Count(IsWorkerAct, schedule) <= 10 * |s.queue| + 10 * |s.workers| + 4 * s.maxThreads
      && (WorkersRest(s') ==> s'.queue == [] && s'.runs == s'.pushes)
  {
    InvAlways(s);
    CalmRun(s, schedule);
    InvAfter(s, schedule);
    RanksBound(s.workers);
    var s' := After(s, schedule).value;
    if WorkersRest(s') {
      RestIsDone(s');
    }
  }

  lemma {:induction false} RanksBound(ws: seq<WorkerPc>)
    ensures Ranks(ws) <= 10 * |ws|
  {
    if ws != [] {
      RanksBound(ws[..|ws| - 1]);
    }
  }

  /** A detached task does not wait for the pool to be deleted: once the workers rest and its
      owner is between calls it has been freed, unless it had been joined before. */
  lemma DetachedIsFreedAtRest(s: Pool, t: TaskId)
    requires Reachable(s) && NobodyPushes(s) && WorkersRest(s)
    requires t < |s.tasks| && WasDetached(s.tasks[t])
    requires forall c :: 0 <= c < |s.clients| ==> s.clients[c] != DetachFree(t)
    ensures s.tasks[t].frees == 1 <==> !s.tasks[t].release.DetachedOutside?
  {
    InvAlways(s);
    RestingWorkers(s);
    RestIsDone(s);
    DetachedIsFreedOnce(s, t);
  }
}
