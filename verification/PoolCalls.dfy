/** What the calls of the pool return, whatever the other threads do meanwhile. */
module PoolCalls {
  import opened Common
  import opened PoolModel
  import opened PoolControl
  import opened PoolTasks
  import opened PoolTheorems

  // ---- runs in parts ----

  lemma {:induction false} AfterJoins(s: Pool, x: seq<Action>, y: seq<Action>)
    ensures After(s, x + y) == match After(s, x) case None => None case Some(m) => After(m, y)
    decreases |y|
  {
    hide Enabled, Apply;
    if y == [] {
      assert x + y == x;
    } else {
      var last := |y| - 1;
      assert (x + y)[..|x + y| - 1] == x + y[..last];
      AfterJoins(s, x, y[..last]);
    }
  }

  lemma AfterOne(s: Pool, a: Action)
    ensures After(s, [a]) == if Enabled(s, a) then Some(Apply(s, a)) else None
  {
    assert After(s, [a][..0]) == Some(s);
  }

  // ---- one client among the others ----

  /** A step of client c, or one that wakes it otherwise than by a signal. */
  predicate Own(a: Action, c: nat) {
    !a.WorkerAct? && !a.WorkerSpurious? && a.c == c
  }

  /** Client c begins something new. */
  predicate Begins(a: Action, c: nat) {
    (a.Invoke? || a.NewTask?) && a.c == c
  }

  lemma OthersLeave(s: Pool, a: Action, c: nat)
    requires Enabled(s, a) && c < |s.clients| && !s.clients[c].JoinBlocked? && !Own(a, c)
    ensures |Apply(s, a).clients| == |s.clients| && Apply(s, a).clients[c] == s.clients[c]
  {
    match a
    case WorkerAct(i, value, wake) => WorkerStepMoves(s, i, value, wake);
    case ClientAct(d, wake) => ClientStepMoves(s, d, wake);
    case _ =>
  }

  lemma {:induction false} Stays(s: Pool, schedule: seq<Action>, c: nat)
    requires c < |s.clients| && !s.clients[c].JoinBlocked? && After(s, schedule).Some?
    requires forall k :: 0 <= k < |schedule| ==> !Own(schedule[k], c)
    ensures var e := After(s, schedule).value; |e.clients| == |s.clients| && e.clients[c] == s.clients[c]
  {
    hide Enabled, Apply;
    if schedule != [] {
      var last := |schedule| - 1;
      Stays(s, schedule[..last], c);
      OthersLeave(After(s, schedule[..last]).value, schedule[last], c);
    }
  }

  /** How far a call has come that is not over, or how it has ended. */
  datatype Phase =
    | InPush
    | InJoin(task: TaskId, timed: bool)
    | InDetach
    | InDelete
    | Ended(outcome: Outcome)

  predicate At(p: Phase, pc: ClientPc) {
    match p
    case InPush =>
      || pc.PushLock? || pc.PushInsert? || pc.PushStatus? || pc.PushSpawn? || pc.PushUnlock? || pc.PushSignal?
      || pc == Ready(Success)
    case InJoin(t, timed) =>
      || pc == JoinLock(t) || pc == JoinBlocked(t) || pc == JoinTake(t) || (pc.JoinMark? && pc.task == t)
      || (pc.Ready? && pc.last.JoinedWith? && pc.last.task == t)
      || (timed && pc == Ready(Failed(Timeout)))
    case InDetach => pc.DetachLock? || pc.DetachFree? || pc == Ready(Success)
    case InDelete => pc.DelFlag? || pc.DelBroadcast? || pc.DelJoin? || pc.DelDone?
    case Ended(outcome) => pc == Ready(outcome)
  }

  /** Nobody but the client leads its call on, except that a sleeping joiner may be woken. */
  lemma PhaseKept(s: Pool, a: Action, c: nat, p: Phase)
    requires Enabled(s, a) && c < |s.clients| && At(p, s.clients[c]) && !Begins(a, c)
    requires p.InJoin? && !p.timed ==> a != TimeOut(c)
    ensures |Apply(s, a).clients| == |s.clients| && At(p, Apply(s, a).clients[c])
  {
    match a
    case WorkerAct(i, value, wake) => WorkerStepMoves(s, i, value, wake);
    case ClientAct(d, wake) => ClientStepMoves(s, d, wake);
    case _ =>
  }

  lemma {:induction false} PhaseAfter(s: Pool, schedule: seq<Action>, c: nat, p: Phase)
    requires c < |s.clients| && At(p, s.clients[c]) && After(s, schedule).Some?
    requires forall k :: 0 <= k < |schedule| ==> !Begins(schedule[k], c)
    requires p.InJoin? && !p.timed ==> TimeOut(c) !in schedule
    ensures var e := After(s, schedule).value; |e.clients| == |s.clients| && At(p, e.clients[c])
  {
    hide Enabled, Apply, At;
    if schedule != [] {
      var last := |schedule| - 1;
      PhaseAfter(s, schedule[..last], c, p);
      PhaseKept(After(s, schedule[..last]).value, schedule[last], c, p);
    }
  }

  /** A run in which client c calls, others move, c makes its first step, and more follows
      without a new call of c. */
  function CallRun(c: nat, call: Call, before: seq<Action>, wake: Option<nat>, rest: seq<Action>): seq<Action> {
    [Invoke(c, call)] + before + [ClientAct(c, wake)] + rest
  }

  ghost predicate Undisturbed(c: nat, before: seq<Action>, rest: seq<Action>) {
    && (forall k :: 0 <= k < |before| ==> !Own(before[k], c))
    && forall k :: 0 <= k < |rest| ==> !Begins(rest[k], c)
  }

  /** The state in which c makes the first step of its call. */
  lemma FirstStepOf(s: Pool, c: nat, call: Call, before: seq<Action>, wake: Option<nat>, rest: seq<Action>)
    returns (s1: Pool)
    requires Reachable(s) && Undisturbed(c, before, rest) && After(s, CallRun(c, call, before, wake, rest)).Some?
    ensures After(s, [Invoke(c, call)] + before) == Some(s1) && Inv(s1)
    ensures c < |s1.clients| && s1.clients[c] == FirstStep(call) && ClientEnabled(s1, c, wake)
    ensures After(ClientStep(s1, c, wake), rest) == After(s, CallRun(c, call, before, wake, rest))
  {
    hide Enabled, Apply, Inv;
    var run := CallRun(c, call, before, wake, rest);
    assert run == ([Invoke(c, call)] + before) + ([ClientAct(c, wake)] + rest);
    AfterJoins(s, [Invoke(c, call)] + before, [ClientAct(c, wake)] + rest);
    s1 := After(s, [Invoke(c, call)] + before).value;
    AfterJoins(s, [Invoke(c, call)], before);
    AfterOne(s, Invoke(c, call));
    Invoked(s, c, call);
    Stays(Apply(s, Invoke(c, call)), before, c);
    AfterJoins(s1, [ClientAct(c, wake)], rest);
    AfterOne(s1, ClientAct(c, wake));
    ActIs(s1, c, wake);
    InvAlways(s);
    InvAfter(s, [Invoke(c, call)] + before);
  }

  lemma Invoked(s: Pool, c: nat, call: Call)
    requires Enabled(s, Invoke(c, call))
    ensures var t := Apply(s, Invoke(c, call));
      c < |t.clients| && t.clients[c] == FirstStep(call) && !t.clients[c].JoinBlocked?
  {
  }

  lemma ActIs(s: Pool, c: nat, wake: Option<nat>)
    ensures Enabled(s, ClientAct(c, wake)) <==> ClientEnabled(s, c, wake)
    ensures ClientEnabled(s, c, wake) ==> Apply(s, ClientAct(c, wake)) == ClientStep(s, c, wake)
  {
  }

  // ---- outcomes ----

  /** A push is refused if and only if the queue held 100000 tasks or more at its check (174);
      otherwise it returns 0. */
  lemma PushOutcome(s: Pool, c: nat, t: TaskId, before: seq<Action>, wake: Option<nat>, rest: seq<Action>, e: Pool)
    requires Reachable(s) && Undisturbed(c, before, rest)
    requires After(s, CallRun(c, Push(t), before, wake, rest)) == Some(e) && c < |e.clients| && e.clients[c].Ready?
    ensures After(s, [Invoke(c, Push(t))] + before).Some?
    ensures var s1 := After(s, [Invoke(c, Push(t))] + before).value;
      e.clients[c] == Ready(if |s1.queue| >= 100_000 then Failed(TooManyTasks) else Success)
  {
    var s1 := FirstStepOf(s, c, Push(t), before, wake, rest);
    var p := if |s1.queue| >= 100_000 then Ended(Failed(TooManyTasks)) else InPush;
    PhaseAfter(ClientStep(s1, c, wake), rest, c, p);
  }

  /** A join is refused if and only if the task had never been pushed when the call read its
      status (228); otherwise, unless it times out, it ends only by joining that task. */
  lemma JoinOutcome(s: Pool, c: nat, t: TaskId, before: seq<Action>, wake: Option<nat>, rest: seq<Action>, e: Pool)
    requires Reachable(s) && Undisturbed(c, before, rest)
    requires After(s, CallRun(c, Join(t), before, wake, rest)) == Some(e) && c < |e.clients| && e.clients[c].Ready?
    ensures After(s, [Invoke(c, Join(t))] + before).Some?
    ensures var s1 := After(s, [Invoke(c, Join(t))] + before).value; var last := e.clients[c].last;
      t < |s1.tasks| &&
      if s1.tasks[t].pushes == 0 then last == Failed(TaskNotPushed)
      else (last.JoinedWith? && last.task == t) || (last == Failed(Timeout) && TimeOut(c) in rest)
  {
    hide Inv, Apply, Enabled;
    var s1 := FirstStepOf(s, c, Join(t), before, wake, rest);
    OwnersTask(s1, c, t);
    PhaseAfter(ClientStep(s1, c, wake), rest, c,
      if s1.tasks[t].pushes == 0 then Ended(Failed(TaskNotPushed)) else InJoin(t, TimeOut(c) in rest));
  }

  /** The task of a call that does not push it: created means never pushed, and created, joined
      or finished means outside the pool. */
  lemma OwnersTask(s: Pool, c: nat, t: TaskId)
    requires Inv(s) && c < |s.clients|
    requires s.clients[c] == JoinRead(t) || s.clients[c] == DetachRead(t) || s.clients[c] == DropTask(t)
    ensures t < |s.tasks| && s.tasks[t].release.Owned?
    ensures s.tasks[t].status.Created? <==> s.tasks[t].pushes == 0
    ensures InPool(s, t) <==> !s.tasks[t].status.Created? && !s.tasks[t].status.Joined?
  {
    assert ClientKnows(s, c, s.clients[c]);
    assert RecordOk(s, t) && TaskPlace(s, t, s.tasks[t].place);
    forall i | 0 <= i < |s.workers| && WorksOn(s.workers[i]) == Some(t) ensures s.tasks[t].place == AtWorker(i) {
      assert WorkerPlace(s, i, s.workers[i]);
    }
  }

  /** Queued, with a worker, or run and not joined yet. */
  ghost predicate InPool(s: Pool, t: TaskId)
    requires t < |s.tasks|
  {
    || t in s.queue
    || (exists i :: 0 <= i < |s.workers| && WorksOn(s.workers[i]) == Some(t))
    || s.tasks[t].status.Finished?
  }

  /** A detach is refused if and only if the task has never been pushed. */
  lemma DetachOutcome(s: Pool, c: nat, t: TaskId, before: seq<Action>, wake: Option<nat>, rest: seq<Action>, e: Pool)
    requires Reachable(s) && Undisturbed(c, before, rest)
    requires After(s, CallRun(c, Detach(t), before, wake, rest)) == Some(e) && c < |e.clients| && e.clients[c].Ready?
    ensures After(s, [Invoke(c, Detach(t))] + before).Some?
    ensures var s1 := After(s, [Invoke(c, Detach(t))] + before).value;
      t < |s1.tasks| && e.clients[c] == Ready(if s1.tasks[t].pushes == 0 then Failed(TaskNotPushed) else Success)
  {
    var s1 := FirstStepOf(s, c, Detach(t), before, wake, rest);
    OwnersTask(s1, c, t);
    PhaseAfter(ClientStep(s1, c, wake), rest, c,
      if s1.tasks[t].pushes == 0 then Ended(Failed(TaskNotPushed)) else InDetach);
  }

  lemma WorkerFrees(s: Pool, i: nat, value: int, wake: Option<nat>, t: TaskId)
    requires WorkerEnabled(s, i, wake) && t < |s.tasks|
    ensures var s' := WorkerStep(s, i, value, wake); t < |s'.tasks| && s'.tasks[t].frees >= s.tasks[t].frees
  {
  }

  lemma ClientFrees(s: Pool, c: nat, wake: Option<nat>, t: TaskId)
    requires ClientEnabled(s, c, wake) && t < |s.tasks|
    ensures var s' := ClientStep(s, c, wake); t < |s'.tasks| && s'.tasks[t].frees >= s.tasks[t].frees
  {
  }

  lemma FreesGrow(s: Pool, a: Action, t: TaskId)
    requires Enabled(s, a) && t < |s.tasks|
    ensures t < |Apply(s, a).tasks| && Apply(s, a).tasks[t].frees >= s.tasks[t].frees
  {
    hide WorkerStep, ClientStep;
    match a
    case WorkerAct(i, value, wake) => WorkerFrees(s, i, value, wake, t);
    case ClientAct(c, wake) => ClientFrees(s, c, wake, t);
    case _ =>
  }

  lemma {:induction false} FreedStays(s: Pool, schedule: seq<Action>, t: TaskId)
    requires Inv(s) && t < |s.tasks| && s.tasks[t].frees == 1 && After(s, schedule).Some?
    ensures var e := After(s, schedule).value; t < |e.tasks| && e.tasks[t].frees == 1
  {
    hide Enabled, Apply, Inv;
    if schedule != [] {
      var last := |schedule| - 1;
      FreedStays(s, schedule[..last], t);
      FreesGrow(After(s, schedule[..last]).value, schedule[last], t);
      InvAfter(s, schedule);
      FreedOnceIn(After(s, schedule).value, t);
    }
  }

  lemma FreedOnceIn(s: Pool, t: TaskId)
    requires Inv(s) && t < |s.tasks|
    ensures s.tasks[t].frees <= 1
  {
    assert RecordOk(s, t);
  }

  /** Deleting a task is refused if and only if the task is in the pool; otherwise it is freed. */
  lemma DropOutcome(s: Pool, c: nat, t: TaskId, before: seq<Action>, wake: Option<nat>, rest: seq<Action>, e: Pool)
    requires Reachable(s) && Undisturbed(c, before, rest)
    requires After(s, CallRun(c, Drop(t), before, wake, rest)) == Some(e)
    ensures After(s, [Invoke(c, Drop(t))] + before).Some?
    ensures var s1 := After(s, [Invoke(c, Drop(t))] + before).value;
      && t < |s1.tasks| && c < |e.clients|
      && e.clients[c] == Ready(if InPool(s1, t) then Failed(TaskInPool) else Success)
      && (!InPool(s1, t) ==> t < |e.tasks| && e.tasks[t].frees == 1)
  {
    hide Enabled, Apply, Inv, ClientStep, InPool, ClientEnabled;
    var s1 := FirstStepOf(s, c, Drop(t), before, wake, rest);
    DropStep(s1, c, t, wake);
    var s2 := ClientStep(s1, c, wake);
    PhaseAfter(s2, rest, c, Ended(if InPool(s1, t) then Failed(TaskInPool) else Success));
    if !InPool(s1, t) {
      FreedStays(s2, rest, t);
    }
  }

  lemma DropStep(s: Pool, c: nat, t: TaskId, wake: Option<nat>)
    requires Inv(s) && c < |s.clients| && s.clients[c] == DropTask(t) && ClientEnabled(s, c, wake)
    ensures t < |s.tasks| && Inv(ClientStep(s, c, wake))
    ensures var s' := ClientStep(s, c, wake);
      && c < |s'.clients| && s'.clients[c] == Ready(if InPool(s, t) then Failed(TaskInPool) else Success)
      && (!InPool(s, t) ==> t < |s'.tasks| && s'.tasks[t].frees == 1)
  {
    hide InPool;
    OwnersTask(s, c, t);
    InvInductive(s, ClientAct(c, wake));
    assert ClientKnows(s, c, s.clients[c]);
    assert RecordOk(s, t);
  }

  /** Deleting the pool is refused if a worker was running a task when the counter was read. */
  lemma DeleteRefused(s: Pool, c: nat, before: seq<Action>, wake: Option<nat>, rest: seq<Action>, e: Pool)
    requires Reachable(s) && Undisturbed(c, before, rest)
    requires After(s, CallRun(c, DeletePool, before, wake, rest)) == Some(e)
    ensures After(s, [Invoke(c, DeletePool)] + before).Some? && c < |e.clients|
    ensures var s1 := After(s, [Invoke(c, DeletePool)] + before).value;
      (exists i :: 0 <= i < |s1.workers| && InProgress(s1.workers[i])) ==> e.clients[c] == Ready(Failed(HasTasks))
  {
    hide Enabled, Apply, Inv, ClientStep, ClientEnabled;
    var s1 := FirstStepOf(s, c, DeletePool, before, wake, rest);
    FirstRead(s1, c, wake);
    ClientsStay(ClientStep(s1, c, wake), rest);
    if exists i :: 0 <= i < |s1.workers| && InProgress(s1.workers[i]) {
      PhaseAfter(ClientStep(s1, c, wake), rest, c, Ended(Failed(HasTasks)));
    }
  }

  lemma FirstRead(s: Pool, c: nat, wake: Option<nat>)
    requires Inv(s) && c < |s.clients| && s.clients[c].DelInProgress? && ClientEnabled(s, c, wake)
    ensures var s' := ClientStep(s, c, wake);
      && c < |s'.clients|
      && s'.clients[c] == if exists i :: 0 <= i < |s.workers| && InProgress(s.workers[i]) then Ready(Failed(HasTasks))
                          else DelQueue
  {
    CountZero(InProgress, s.workers);
  }

  lemma ClientCount(s: Pool, a: Action)
    requires Enabled(s, a)
    ensures |Apply(s, a).clients| == |s.clients|
  {
    hide WorkerStep, ClientStep;
    match a
    case WorkerAct(i, value, wake) => WorkerStepMoves(s, i, value, wake);
    case ClientAct(c, wake) => ClientStepMoves(s, c, wake);
    case _ =>
  }

  lemma {:induction false} ClientsStay(s: Pool, schedule: seq<Action>)
    requires After(s, schedule).Some?
    ensures |After(s, schedule).value.clients| == |s.clients|
  {
    hide Enabled, Apply;
    if schedule != [] {
      var last := |schedule| - 1;
      ClientsStay(s, schedule[..last]);
      ClientCount(After(s, schedule[..last]).value, schedule[last]);
    }
  }

  /** Otherwise it is refused if and only if the queue was not empty when that counter was
      read; else it goes on to delete the pool and is never refused any more. */
  lemma DeleteOutcome(s: Pool, c: nat, before: seq<Action>, wake: Option<nat>, between: seq<Action>,
      wake2: Option<nat>, rest: seq<Action>, e: Pool)
    requires Reachable(s) && Undisturbed(c, before + between, rest)
    requires After(s, CallRun(c, DeletePool, before, wake, between + [ClientAct(c, wake2)] + rest)) == Some(e)
    ensures After(s, CallRun(c, DeletePool, before, wake, between)).Some? && c < |e.clients|
    ensures var s2 := After(s, CallRun(c, DeletePool, before, wake, between)).value;
      if s2.queue != [] then e.clients[c] == Ready(Failed(HasTasks)) else Deleting(e.clients[c])
  {
    hide Enabled, Apply, Inv;
    var more := between + [ClientAct(c, wake2)] + rest;
    Quieter(c, before, between, wake2, rest);
    var s1 := FirstStepOf(s, c, DeletePool, before, wake, more);
    var s1' := ClientStep(s1, c, wake);
    assert more == between + ([ClientAct(c, wake2)] + rest);
    AfterJoins(s1', between, [ClientAct(c, wake2)] + rest);
    var s2 := After(s1', between).value;
    FirstStepBack(s, c, before, wake, between, s1);
    AfterJoins(s2, [ClientAct(c, wake2)], rest);
    AfterOne(s2, ClientAct(c, wake2));
    ActIs(s2, c, wake2);
    SecondRead(s1, c, wake, between, wake2, s2);
    PhaseAfter(ClientStep(s2, c, wake2), rest, c, if s2.queue != [] then Ended(Failed(HasTasks)) else InDelete);
  }

  lemma Quieter(c: nat, before: seq<Action>, between: seq<Action>, wake2: Option<nat>, rest: seq<Action>)
    requires Undisturbed(c, before + between, rest)
    ensures Undisturbed(c, before, between + [ClientAct(c, wake2)] + rest)
    ensures forall k :: 0 <= k < |between| ==> !Own(between[k], c)
  {
    forall k | 0 <= k < |before| ensures !Own(before[k], c) {
      assert (before + between)[k] == before[k];
    }
    forall k | 0 <= k < |between| ensures !Own(between[k], c) {
      assert (before + between)[|before| + k] == between[k];
    }
  }

  lemma FirstStepBack(s: Pool, c: nat, before: seq<Action>, wake: Option<nat>, rest: seq<Action>, s1: Pool)
    requires After(s, [Invoke(c, DeletePool)] + before) == Some(s1) && ClientEnabled(s1, c, wake)
    ensures After(s, CallRun(c, DeletePool, before, wake, rest)) == After(ClientStep(s1, c, wake), rest)
  {
    var front := [Invoke(c, DeletePool)] + before;
    assert CallRun(c, DeletePool, before, wake, rest) == front + ([ClientAct(c, wake)] + rest);
    AfterJoins(s, front, [ClientAct(c, wake)] + rest);
    AfterJoins(s1, [ClientAct(c, wake)], rest);
    AfterOne(s1, ClientAct(c, wake));
  }

  /** A deleter that makes its second step has passed the first check. */
  lemma SecondRead(s: Pool, c: nat, wake: Option<nat>, between: seq<Action>, wake2: Option<nat>, s2: Pool)
    requires c < |s.clients| && s.clients[c].DelInProgress? && ClientEnabled(s, c, wake)
    requires After(ClientStep(s, c, wake), between) == Some(s2) && ClientEnabled(s2, c, wake2)
    requires forall k :: 0 <= k < |between| ==> !Own(between[k], c)
    ensures c < |s2.clients| && s2.clients[c].DelQueue?
  {
    Stays(ClientStep(s, c, wake), between, c);
  }

  // ---- calls while nobody else moves ----

  /** One more step of client c. */
  lemma Next(s: Pool, schedule: seq<Action>, m: Pool, c: nat, wake: Option<nat>, pc: ClientPc)
    returns (longer: seq<Action>)
    requires After(s, schedule) == Some(m) && c < |m.clients| && m.clients[c] == pc && ClientEnabled(m, c, wake)
    requires forall k :: 0 <= k < |schedule| ==> Own(schedule[k], c)
    ensures After(s, longer) == Some(ClientStep(m, c, wake)) && forall k :: 0 <= k < |longer| ==> Own(longer[k], c)
  {
    hide ClientStep, ClientEnabled;
    ActIs(m, c, wake);
    longer := schedule + [ClientAct(c, wake)];
    AfterJoins(s, schedule, [ClientAct(c, wake)]);
    AfterOne(m, ClientAct(c, wake));
  }

  /** From the call to the critical section (178). */
  lemma PushEnters(s: Pool, c: nat, t: TaskId) returns (schedule: seq<Action>)
    requires MayInvoke(s, c, Push(t)) && s.mutex.Free? && |s.queue| < 100_000
    ensures After(s, schedule) == Some(ClientAt(s, c, PushInsert(t)).(mutex := ByClient(c)))
    ensures forall k :: 0 <= k < |schedule| ==> Own(schedule[k], c)
  {
    AfterOne(s, Invoke(c, Push(t)));
    var s1 := ClientAt(s, c, PushCheck(t));
    var s2 := ClientAt(s, c, PushLock(t));
    assert ClientAt(s1, c, PushLock(t)) == s2;
    schedule := Next(s, [Invoke(c, Push(t))], s1, c, None, PushCheck(t));
    schedule := Next(s, schedule, s2, c, None, PushLock(t));
    assert ClientAt(s2, c, PushInsert(t)) == ClientAt(s, c, PushInsert(t));
  }

  /** What the critical section leaves behind: the task queued last, as waiting, and one more
      worker if there is room for one and all workers run tasks. */
  function Inserted(s: Pool, t: TaskId): Pool
    requires t < |s.tasks|
  {
    var rec := s.tasks[t];
    SetTask(s, t,
      rec.(place := InQueue(|s.queue|), pushes := rec.pushes + 1, returned := None, status := Waiting))
    .(queue := s.queue + [t], pushes := s.pushes + 1,
      workers := if |s.workers| < s.maxThreads && s.inProgress == |s.workers| then s.workers + [Lock] else s.workers)
  }

  lemma PushInserts(s0: Pool, schedule: seq<Action>, s: Pool, c: nat, t: TaskId) returns (longer: seq<Action>)
    requires c < |s.clients| && t < |s.tasks|
    requires After(s0, schedule) == Some(ClientAt(s, c, PushInsert(t)).(mutex := ByClient(c)))
    requires forall k :: 0 <= k < |schedule| ==> Own(schedule[k], c)
    ensures After(s0, longer) ==
      Some(ClientAt(Inserted(s, t), c, PushSpawn(t)).(mutex := ByClient(c), workers := s.workers))
    ensures forall k :: 0 <= k < |longer| ==> Own(longer[k], c)
  {
    hide After;
    var m := ClientAt(s, c, PushInsert(t)).(mutex := ByClient(c));
    longer := Next(s0, schedule, m, c, None, PushInsert(t));
    m := ClientStep(m, c, None);
    longer := Next(s0, longer, m, c, None, PushStatus(t));
    assert ClientStep(m, c, None) ==
      ClientAt(Inserted(s, t), c, PushSpawn(t)).(mutex := ByClient(c), workers := s.workers);
  }

  lemma PushLeaves(s0: Pool, schedule: seq<Action>, s: Pool, c: nat, t: TaskId) returns (longer: seq<Action>)
    requires c < |s.clients| && t < |s.tasks|
    requires After(s0, schedule) ==
      Some(ClientAt(Inserted(s, t), c, PushSpawn(t)).(mutex := ByClient(c), workers := s.workers))
    requires forall k :: 0 <= k < |schedule| ==> Own(schedule[k], c)
    ensures After(s0, longer) == Some(ClientAt(Inserted(s, t), c, PushSignal(t)).(mutex := Free))
    ensures forall k :: 0 <= k < |longer| ==> Own(longer[k], c)
  {
    hide After;
    var m := ClientAt(Inserted(s, t), c, PushSpawn(t)).(mutex := ByClient(c), workers := s.workers);
    longer := Next(s0, schedule, m, c, None, PushSpawn(t));
    m := ClientStep(m, c, None);
    assert m == ClientAt(Inserted(s, t), c, PushUnlock(t)).(mutex := ByClient(c));
    longer := Next(s0, longer, m, c, None, PushUnlock(t));
    assert ClientStep(m, c, None) == ClientAt(Inserted(s, t), c, PushSignal(t)).(mutex := Free);
  }

  /** A push into a queue with room, while nobody else moves, returns 0. The task is then the
      last in the queue, waiting, and counted once more; if all workers run tasks and there
      may be more of them, a new one has been started; and if a worker slept, one is awake. */
  lemma PushAlone(s: Pool, c: nat, t: TaskId) returns (schedule: seq<Action>, e: Pool)
    requires Reachable(s) && MayInvoke(s, c, Push(t)) && s.mutex.Free? && |s.queue| < 100_000
    ensures After(s, schedule) == Some(e) && forall k :: 0 <= k < |schedule| ==> Own(schedule[k], c)
    ensures |e.clients| == |s.clients| && e.clients[c] == Ready(Success)
    ensures e.queue == s.queue + [t] && e.pushes == s.pushes + 1 && e.mutex.Free?
    ensures |e.tasks| == |s.tasks| && forall u :: 0 <= u < |s.tasks| && u != t ==> e.tasks[u] == s.tasks[u]
    ensures e.tasks[t].status == Waiting && e.tasks[t].pushes == s.tasks[t].pushes + 1
    ensures var spawns := |s.workers| < s.maxThreads && forall i :: 0 <= i < |s.workers| ==> InProgress(s.workers[i]);
      |e.workers| == |s.workers| + (if spawns then 1 else 0)
    ensures (exists i :: 0 <= i < |s.workers| && s.workers[i].Blocked?) ==>
      exists i :: 0 <= i < |s.workers| && s.workers[i].Blocked? && e.workers[i].Woken?
  {
    hide After, Inv, Reachable, MayInvoke;
    InvAlways(s);
    AllInProgress(s);
    MayPush(s, c, t);
    schedule := PushEnters(s, c, t);
    schedule := PushInserts(s, schedule, s, c, t);
    schedule := PushLeaves(s, schedule, s, c, t);
    var m := ClientAt(Inserted(s, t), c, PushSignal(t)).(mutex := Free);
    var wake := None;
    if i :| 0 <= i < |s.workers| && s.workers[i].Blocked? {
      wake := Some(i);
      assert m.workers[i].Blocked?;
    }
    schedule := Next(s, schedule, m, c, wake, PushSignal(t));
    e := ClientStep(m, c, wake);
  }

  lemma MayPush(s: Pool, c: nat, t: TaskId)
    requires MayInvoke(s, c, Push(t))
    ensures c < |s.clients| && t < |s.tasks|
  {
  }

  lemma AllInProgress(s: Pool)
    requires Inv(s)
    ensures s.inProgress == |s.workers| <==> forall i :: 0 <= i < |s.workers| ==> InProgress(s.workers[i])
  {
    CountAtMost(InProgress, s.workers);
    if forall i :: 0 <= i < |s.workers| ==> InProgress(s.workers[i]) {
      CountAll(InProgress, s.workers);
    }
  }

  /** A join of a finished task, while nobody else moves, returns its result and marks it. */
  lemma JoinAlone(s: Pool, c: nat, t: TaskId) returns (schedule: seq<Action>)
    requires MayInvoke(s, c, Join(t)) && s.tasks[t].status.Finished?
    ensures forall k :: 0 <= k < |schedule| ==> Own(schedule[k], c)
    ensures After(s, schedule) == Some(s.(
      clients := s.clients[c := Ready(JoinedWith(t, s.tasks[t].result))],
      tasks := s.tasks[t := s.tasks[t].(status := Joined)]))
  {
    hide After;
    AfterOne(s, Invoke(c, Join(t)));
    schedule := [Invoke(c, Join(t))];
    var m := ClientAt(s, c, JoinRead(t));
    schedule := Next(s, schedule, m, c, None, JoinRead(t));
    m := ClientAt(s, c, JoinLock(t));
    assert ClientStep(ClientAt(s, c, JoinRead(t)), c, None) == m;
    schedule := Next(s, schedule, m, c, None, JoinLock(t));
    m := ClientAt(s, c, JoinTake(t));
    assert ClientStep(ClientAt(s, c, JoinLock(t)), c, None) == m;
    schedule := Next(s, schedule, m, c, None, JoinTake(t));
    m := ClientAt(s, c, JoinMark(t, s.tasks[t].result));
    assert ClientStep(ClientAt(s, c, JoinTake(t)), c, None) == m;
    schedule := Next(s, schedule, m, c, None, JoinMark(t, s.tasks[t].result));
    var last := Ready(JoinedWith(t, s.tasks[t].result));
    assert s.clients[c := m.clients[c]][c := last] == s.clients[c := last];
  }

  // ---- what the status tells ----

  /** Taken by the worker, and the function not called yet. */
  predicate Fetched(w: WorkerPc, t: TaskId) {
    w == CountUp(t) || w == Unlock(Some(t)) || w == Start(t)
  }

  predicate Executes(w: WorkerPc, t: TaskId) {
    w == Run(t) || (w.Finish? && w.task == t)
  }

  lemma WorkerHolds(s: Pool, t: TaskId)
    requires Inv(s) && t < |s.tasks|
    ensures forall i :: 0 <= i < |s.workers| && (Fetched(s.workers[i], t) || Executes(s.workers[i], t)) ==>
      s.tasks[t].place == AtWorker(i)
    ensures forall i: nat :: s.tasks[t].place == AtWorker(i) ==>
      i < |s.workers| && (Fetched(s.workers[i], t) || Executes(s.workers[i], t))
    ensures t in s.queue <==> s.tasks[t].place.InQueue?
  {
    assert TaskPlace(s, t, s.tasks[t].place);
    forall i | 0 <= i < |s.workers| && WorksOn(s.workers[i]) == Some(t) ensures s.tasks[t].place == AtWorker(i) {
      assert WorkerPlace(s, i, s.workers[i]);
    }
  }

  /** The status of a task its owner still has, except inside its push between 180 and 181: it
      is what thread_task_is_running and thread_task_is_finished say and the calls go by. */
  lemma StatusTells(s: Pool, t: TaskId)
    requires Reachable(s) && t < |s.tasks| && s.tasks[t].release.Owned?
    requires forall c :: 0 <= c < |s.clients| ==> s.clients[c] != PushStatus(t)
    ensures s.tasks[t].status.Created? <==> s.tasks[t].pushes == 0
    ensures s.tasks[t].status.Waiting? <==>
      (t in s.queue || exists i :: 0 <= i < |s.workers| && Fetched(s.workers[i], t))
    ensures s.tasks[t].status.Running? <==> exists i :: 0 <= i < |s.workers| && Executes(s.workers[i], t)
    ensures s.tasks[t].status.Finished? ==>
      s.tasks[t].runs == s.tasks[t].pushes > 0 && s.tasks[t].returned == Some(s.tasks[t].result)
    ensures !s.tasks[t].status.Detached?
  {
    hide Fetched, Executes;
    InvAlways(s);
    WorkerHolds(s, t);
    StatusByPlace(s, t);
  }

  lemma StatusByPlace(s: Pool, t: TaskId)
    requires Inv(s) && t < |s.tasks| && s.tasks[t].release.Owned?
    requires forall c :: 0 <= c < |s.clients| ==> s.clients[c] != PushStatus(t)
    ensures var rec := s.tasks[t];
      && (rec.status.Created? <==> rec.pushes == 0)
      && !rec.status.Detached? && !rec.place.FreedBy?
      && (rec.place.InQueue? ==> rec.status.Waiting?)
      && (rec.place.AtWorker? ==>
            rec.place.worker < |s.workers|
            && rec.status == if Executes(s.workers[rec.place.worker], t) then Running else Waiting)
      && (rec.place.Out? ==> !rec.status.Waiting? && !rec.status.Running?)
      && (rec.status.Finished? ==> rec.runs == rec.pushes > 0 && rec.returned == Some(rec.result))
    ensures forall i :: 0 <= i < |s.workers| ==> !(Fetched(s.workers[i], t) && Executes(s.workers[i], t))
  {
    assert RecordOk(s, t) && TaskPlace(s, t, s.tasks[t].place);
  }

  // ---- a new pool ----

  /** A pool for at most 1 to 20 threads can be made, and no other; it starts no thread. */
  lemma NewPoolOutcome(maxThreads: int, n: nat)
    ensures NewPool(maxThreads, n).Some? <==> 1 <= maxThreads <= 20
    ensures 1 <= maxThreads <= 20 ==>
      var s := NewPool(maxThreads, n).value;
      && Reachable(s) && s.maxThreads == maxThreads && s.workers == [] && s.queue == [] && s.tasks == []
      && !s.isDeleted && s.inProgress == 0 && |s.clients| == n
  {
    if 1 <= maxThreads <= 20 {
      var s := NewPool(maxThreads, n).value;
      assert Initial(s) && After(s, []) == Some(s);
    }
  }
}
