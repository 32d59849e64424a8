/** Exactly when thread_pool_delete returns. */
module PoolDeletion {
  import opened Common
  import opened PoolModel
  import opened PoolControl
  import opened PoolTheorems
  import opened PoolProgress

  // The flag is set and the broadcast sent without the pool mutex (90-91), so a worker between
  // its check (119) and its wait (120) can miss both.

  /** Nobody sleeps or is about to, and the pool is being deleted. */
  ghost predicate AllAwake(s: Pool) {
    s.isDeleted && forall i :: 0 <= i < |s.workers| ==> !s.workers[i].Blocked? && !s.workers[i].BeforeWait?
  }

  lemma AwakeInductive(s: Pool, a: Action)
    requires Control(s) && AllAwake(s) && Enabled(s, a)
    ensures AllAwake(Apply(s, a))
  {
    if a.WorkerAct? {
      WorkerStepMoves(s, a.i, a.value, a.wake);
    } else if a.ClientAct? {
      assert ClientOk(s, s.clients[a.c]);
    }
  }

  /** Worker i sleeps or is about to, and the only deleter waits for the threads. */
  ghost predicate Doomed(s: Pool, i: nat) {
    && s.isDeleted && i < |s.workers| && (s.workers[i].Blocked? || s.workers[i].BeforeWait?)
    && exists d :: 0 <= d < |s.clients| && s.clients[d].DelJoin?
  }

  lemma DoomedInductive(s: Pool, a: Action, i: nat)
    requires Control(s) && Doomed(s, i) && Enabled(s, a) && a != WorkerSpurious(i)
    ensures Doomed(Apply(s, a), i)
  {
    var s' := Apply(s, a);
    var d :| 0 <= d < |s.clients| && s.clients[d].DelJoin?;
    assert ClientOk(s, s.clients[d]);
    match a
    case WorkerAct(j, value, wake) =>
      WorkerStepMoves(s, j, value, wake);
      assert s'.clients[d].DelJoin?;
    case ClientAct(c, wake) =>
      assert ClientOk(s, s.clients[c]);
      assert s'.clients[d].DelJoin?;
    case _ => assert s'.clients[d].DelJoin?;
  }

  lemma BroadcastWakes(s: Pool, c: nat)
    requires Control(s) && c < |s.clients| && s.clients[c].DelBroadcast?
    ensures var s' := ClientStep(s, c, None);
      && s'.isDeleted && |s'.workers| == |s.workers|
      && (forall i :: 0 <= i < |s.workers| ==>
            !s'.workers[i].Blocked? && (s'.workers[i].BeforeWait? <==> s.workers[i].BeforeWait?))
      && s'.clients[c].DelJoin?
  {
    assert ClientOk(s, s.clients[c]);
  }

  lemma {:induction false} AwakeAfter(s: Pool, schedule: seq<Action>)
    requires Inv(s) && AllAwake(s) && After(s, schedule).Some?
    ensures AllAwake(After(s, schedule).value)
  {
    if schedule != [] {
      var last := |schedule| - 1;
      AwakeAfter(s, schedule[..last]);
      InvAfter(s, schedule[..last]);
      AwakeInductive(After(s, schedule[..last]).value, schedule[last]);
    }
  }

  // ---- what is left to do after the broadcast ----

  /** A step of a worker, or of the deleter c. */
  predicate Moves(a: Action, c: nat) {
    a.WorkerAct? || (a.ClientAct? && a.c == c)
  }

  /** Neither a worker nor the deleter c can move. */
  ghost predicate AtRest(s: Pool, c: nat) {
    WorkersRest(s) && forall wake :: !ClientEnabled(s, c, wake)
  }

  function JoinsLeft(s: Pool, c: nat): nat
    requires c < |s.clients|
  {
    var pc := s.clients[c];
    if pc.DelJoin? && pc.next <= |s.workers| then |s.workers| + 1 - pc.next else 0
  }

  /** A bound on the steps of the workers and of the deleter c. */
  ghost function Left(s: Pool, c: nat): nat
    requires c < |s.clients|
  {
    Work(s) + JoinsLeft(s, c)
  }

  ghost predicate Closing(s: Pool, c: nat) {
    s.isDeleted && c < |s.clients| && Waited(s.clients[c])
  }

  /** What a step of somebody else does to the deleter's view. */
  lemma OthersLeaveDeleter(s: Pool, a: Action, c: nat)
    requires Control(s) && Closing(s, c) && Enabled(s, a) && (a.ClientAct? ==> a.c != c) && !a.WorkerSpurious?
    ensures var s' := Apply(s, a);
      && Closing(s', c) && s'.clients[c] == s.clients[c] && |s'.workers| == |s.workers|
      && (!a.WorkerAct? ==> s'.workers == s.workers && s'.queue == s.queue)
  {
    hide WorkerStep, ClientStep;
    match a
    case WorkerAct(i, value, wake) => WorkerStepMoves(s, i, value, wake);
    case ClientAct(d, wake) =>
      ClientStepMoves(s, d, wake);
      DeleterIsAlone(s, c, d);
      ClientLeavesWork(s, d, wake);
      FlagStays(s, d, wake);
    case _ =>
  }

  lemma DeleterIsAlone(s: Pool, c: nat, d: nat)
    requires Control(s) && Closing(s, c) && d < |s.clients| && d != c
    ensures !Pushing(s.clients[d]) && !Deleting(s.clients[d])
  {
    assert Deleting(s.clients[c]);
  }

  lemma FlagStays(s: Pool, c: nat, wake: Option<nat>)
    requires s.isDeleted && ClientEnabled(s, c, wake)
    ensures ClientStep(s, c, wake).isDeleted
  {
  }

  lemma DeleterBurns(s: Pool, c: nat, wake: Option<nat>)
    requires Control(s) && Closing(s, c) && ClientEnabled(s, c, wake)
    ensures Closing(ClientStep(s, c, wake), c) && Left(ClientStep(s, c, wake), c) < Left(s, c)
  {
    assert ClientOk(s, s.clients[c]);
  }

  /** Steps of the workers and the deleter use up what is left; no other step adds to it. */
  lemma LeftShrinks(s: Pool, a: Action, c: nat)
    requires Control(s) && Closing(s, c) && Enabled(s, a) && !a.WorkerSpurious?
    ensures Closing(Apply(s, a), c) && c < |s.clients| && c < |Apply(s, a).clients|
    ensures Left(Apply(s, a), c) + (if Moves(a, c) then 1 else 0) <= Left(s, c)
  {
    hide WorkerStep, ClientStep, Control, WorkerEnabled, ClientEnabled;
    if a.ClientAct? && a.c == c {
      DeleterBurns(s, c, a.wake);
    } else {
      OthersLeaveDeleter(s, a, c);
      if a.WorkerAct? {
        WorkerBurns(s, a.i, a.value, a.wake);
      }
    }
  }

  lemma {:induction false} LeftAfter(s: Pool, c: nat, schedule: seq<Action>)
    requires Inv(s) && Closing(s, c) && After(s, schedule).Some?
    requires forall k :: 0 <= k < |schedule| ==> !schedule[k].WorkerSpurious?
    ensures var s' := After(s, schedule).value;
      Closing(s', c) && Count(a => Moves(a, c), schedule) + Left(s', c) <= Left(s, c)
  {
    hide Inv, Closing, Left, Enabled, Apply;
    if schedule != [] {
      var front, a := schedule[..|schedule| - 1], schedule[|schedule| - 1];
      LeftAfter(s, c, front);
      InvAfter(s, front);
      InvHasControl(After(s, front).value);
      LeftShrinks(After(s, front).value, a, c);
    }
  }

  lemma NobodyPushesNow(s: Pool)
    requires Control(s) && s.isDeleted
    ensures NobodyPushes(s)
  {
    forall c | 0 <= c < |s.clients| ensures !Pushing(s.clients[c]) {
      assert ClientOk(s, s.clients[c]);
    }
  }

  /** If nobody sleeps, rest means that delete has returned. */
  lemma AwakeRestIsDone(s: Pool, c: nat)
    requires Inv(s) && AllAwake(s) && Closing(s, c) && AtRest(s, c)
    ensures s.clients[c].DelDone?
  {
    NobodyPushesNow(s);
    RestingWorkers(s);
    assert !ClientEnabled(s, c, None);
  }

  lemma AwakeStep(s: Pool, a: Action)
    requires AllAwake(s) && Enabled(s, a)
    ensures !a.WorkerSpurious?
  {
  }

  /** In an awake pool nobody wakes spuriously. */
  lemma {:induction false} AwakeNotSpurious(s: Pool, schedule: seq<Action>)
    requires Inv(s) && AllAwake(s) && After(s, schedule).Some?
    ensures forall k :: 0 <= k < |schedule| ==> !schedule[k].WorkerSpurious?
  {
    hide Inv, AllAwake, Enabled, Apply;
    if schedule != [] {
      var front := schedule[..|schedule| - 1];
      AwakeNotSpurious(s, front);
      AwakeAfter(s, front);
      AwakeStep(After(s, front).value, schedule[|schedule| - 1]);
    }
  }

  /** If at the broadcast (91) of a run no worker stands between its check (119) and its wait
      (120), delete returns: nobody is asleep at any later time, the workers and the deleter
      make only a bounded number of steps, and one of them can move until delete is done. */
  lemma BroadcastHeard(s: Pool, c: nat, schedule: seq<Action>)
    requires Reachable(s) && c < |s.clients| && s.clients[c].DelBroadcast?
    requires forall i :: 0 <= i < |s.workers| ==> !s.workers[i].BeforeWait?
    requires After(ClientStep(s, c, None), schedule).Some?
    ensures var s' := After(ClientStep(s, c, None), schedule).value;
      && (forall i :: 0 <= i < |s'.workers| ==> !s'.workers[i].Blocked?)
      && Count(a => Moves(a, c), schedule) <= 11 * |s.workers| + 1
      && c < |s'.clients| && (AtRest(s', c) ==> s'.clients[c].DelDone?)
  {
    var s1 := ClientStep(s, c, None);
    AfterBroadcast(s, c);
    AwakeNotSpurious(s1, schedule);
    AwakeAfter(s1, schedule);
    LeftAfter(s1, c, schedule);
    RanksBound(s1.workers);
    InvAfter(s1, schedule);
    var s' := After(s1, schedule).value;
    if AtRest(s', c) {
      AwakeRestIsDone(s', c);
    }
  }

  lemma AfterBroadcast(s: Pool, c: nat)
    requires Reachable(s) && c < |s.clients| && s.clients[c].DelBroadcast?
    ensures var s1 := ClientStep(s, c, None);
      && Inv(s1) && Closing(s1, c) && s1.clients[c] == DelJoin(0) && |s1.workers| == |s.workers| && s1.queue == []
      && (forall i :: 0 <= i < |s.workers| ==>
            !s1.workers[i].Blocked? && (s1.workers[i].BeforeWait? <==> s.workers[i].BeforeWait?))
  {
    InvAlways(s);
    BroadcastWakes(s, c);
    InvInductive(s, ClientAct(c, None));
  }

  lemma {:induction false} DoomedAfter(s: Pool, schedule: seq<Action>, i: nat)
    requires Inv(s) && Doomed(s, i) && After(s, schedule).Some? && WorkerSpurious(i) !in schedule
    ensures Doomed(After(s, schedule).value, i)
  {
    if schedule != [] {
      var last := |schedule| - 1;
      DoomedAfter(s, schedule[..last], i);
      InvAfter(s, schedule[..last]);
      DoomedInductive(After(s, schedule[..last]).value, schedule[last], i);
    }
  }

  /** If some worker does stand there, it never comes out of that wait unless it wakes
      spuriously, and thread_pool_delete does not return. */
  lemma BroadcastMissed(s: Pool, c: nat, i: nat, schedule: seq<Action>)
    requires Reachable(s) && c < |s.clients| && s.clients[c].DelBroadcast?
    requires i < |s.workers| && s.workers[i].BeforeWait?
    requires After(ClientStep(s, c, None), schedule).Some? && WorkerSpurious(i) !in schedule
    ensures var s' := After(ClientStep(s, c, None), schedule).value;
      && i < |s'.workers| && (s'.workers[i].BeforeWait? || s'.workers[i].Blocked?)
      && forall d :: 0 <= d < |s'.clients| ==> !s'.clients[d].DelDone?
  {
    InvAlways(s);
    BroadcastWakes(s, c);
    InvInductive(s, ClientAct(c, None));
    var s1 := ClientStep(s, c, None);
    assert s1.clients[c].DelJoin?;
    DoomedAfter(s1, schedule, i);
    InvAfter(s1, schedule);
    var s' := After(s1, schedule).value;
    forall d | 0 <= d < |s'.clients| ensures !s'.clients[d].DelDone? {
      assert ClientOk(s', s'.clients[d]);
    }
  }

  // ---- exactly when delete returns ----

  lemma SomebodyMoves(s: Pool, c: nat) returns (a: Action)
    requires !AtRest(s, c)
    ensures Enabled(s, a) && Moves(a, c)
  {
    if i, wake :| WorkerEnabled(s, i, wake) {
      a := WorkerAct(i, 0, wake);
    } else {
      var wake :| ClientEnabled(s, c, wake);
      a := ClientAct(c, wake);
    }
  }

  /** Let the workers and the deleter move until none of them can. */
  lemma RunToRest(s: Pool, c: nat) returns (schedule: seq<Action>)
    requires Inv(s) && Closing(s, c) && c < |s.clients|
    ensures After(s, schedule).Some? && AtRest(After(s, schedule).value, c)
    ensures forall k :: 0 <= k < |schedule| ==> !schedule[k].WorkerSpurious?
  {
    hide Inv, Closing, AtRest, Left, Enabled, Apply;
    schedule := [];
    var at := s;
    while !AtRest(at, c)
      invariant After(s, schedule) == Some(at) && Inv(at) && Closing(at, c) && c < |at.clients|
      invariant forall k :: 0 <= k < |schedule| ==> !schedule[k].WorkerSpurious?
      decreases Left(at, c)
    {
      var a := SomebodyMoves(at, c);
      InvHasControl(at);
      LeftShrinks(at, a, c);
      InvInductive(at, a);
      assert (schedule + [a])[..|schedule|] == schedule;
      schedule, at := schedule + [a], Apply(at, a);
    }
  }

  /** Without spurious wakeups, delete returns in every run that the workers and the deleter
      carry on as long as they can, if and only if no worker stands between its check and its
      wait at the broadcast. */
  lemma DeleteReturnsIff(s: Pool, c: nat)
    requires Reachable(s) && c < |s.clients| && s.clients[c].DelBroadcast?
    ensures (forall i :: 0 <= i < |s.workers| ==> !s.workers[i].BeforeWait?)
       <==> forall schedule :: CarriedOn(ClientStep(s, c, None), c, schedule) ==>
              DelDone == After(ClientStep(s, c, None), schedule).value.clients[c]
  {
    var s1 := ClientStep(s, c, None);
    AfterBroadcast(s, c);
    if forall i :: 0 <= i < |s.workers| ==> !s.workers[i].BeforeWait? {
      forall schedule | CarriedOn(s1, c, schedule)
        ensures After(s1, schedule).value.clients[c] == DelDone
      {
        BroadcastHeard(s, c, schedule);
      }
    } else {
      var i :| 0 <= i < |s.workers| && s.workers[i].BeforeWait?;
      var schedule := RunToRest(s1, c);
      LeftAfter(s1, c, schedule);
      assert CarriedOn(s1, c, schedule);
      BroadcastMissed(s, c, i, schedule);
    }
  }

  /** A run without spurious wakeups of workers that ends when neither a worker nor the
      deleter can move. */
  ghost predicate CarriedOn(s: Pool, c: nat, schedule: seq<Action>) {
    && (forall k :: 0 <= k < |schedule| ==> !schedule[k].WorkerSpurious?)
    && After(s, schedule).Some? && c < |After(s, schedule).value.clients| && AtRest(After(s, schedule).value, c)
  }
}
