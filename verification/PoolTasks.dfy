/** What every step keeps about each single task: where it is, what its status means, how
    often it ran, and who frees it. A step is about one task: it has to show all this for
    that one, and leaves the others alone. */
module PoolTasks {
  import opened Common
  import opened PoolModel
  import opened PoolControl

  // ---- places ----

  ghost predicate QueuePlaces(s: Pool) {
    forall k :: 0 <= k < |s.queue| ==> s.queue[k] < |s.tasks| && s.tasks[s.queue[k]].place == InQueue(k)
  }

  ghost predicate WorkerPlace(s: Pool, i: nat, w: WorkerPc) {
    && (WorksOn(w).Some? ==> WorksOn(w).value < |s.tasks| && s.tasks[WorksOn(w).value].place == AtWorker(i))
    && (w.FreeTask? ==> w.task < |s.tasks| && s.tasks[w.task].place == FreedBy(i))
    && (w.Signal? ==> w.task < |s.tasks|)
  }

  ghost predicate TaskPlace(s: Pool, t: TaskId, place: Place) {
    match place
    case Out => true
    case InQueue(k) => k < |s.queue| && s.queue[k] == t
    case AtWorker(i) => i < |s.workers| && WorksOn(s.workers[i]) == Some(t)
    case FreedBy(i) => i < |s.workers| && s.workers[i] == FreeTask(t)
  }

  /** The queue and the workers hold each task at most once, and `place` says where. */
  ghost predicate Places(s: Pool) {
    && QueuePlaces(s)
    && (forall i :: 0 <= i < |s.workers| ==> WorkerPlace(s, i, s.workers[i]))
    && (forall t :: 0 <= t < |s.tasks| ==> TaskPlace(s, t, s.tasks[t].place))
  }

  // ---- records ----

  predicate Inserting(s: Pool, t: TaskId)
    requires t < |s.tasks| && s.tasks[t].owner < |s.clients|
  {
    s.clients[s.tasks[t].owner] == PushStatus(t)
  }

  predicate OwnerFrees(s: Pool, t: TaskId)
    requires t < |s.tasks| && s.tasks[t].owner < |s.clients|
  {
    s.clients[s.tasks[t].owner] == DetachFree(t)
  }

  /** Queued, or with a worker that has not called the function yet. */
  predicate Unrun(s: Pool, place: Place) {
    place.InQueue? || (place.AtWorker? && !(place.worker < |s.workers| && s.workers[place.worker].Finish?))
  }

  /** With a worker that has begun to run the function and is not done with the task. */
  predicate Begun(s: Pool, place: Place) {
    place.AtWorker? && place.worker < |s.workers|
    && (s.workers[place.worker].Run? || s.workers[place.worker].Finish?)
  }

  /** How the status, the place and the history of one task fit together. */
  predicate Lifecycle(rec: Task, inserting: bool, begun: bool) {
    && (rec.place.Out? ==>
          rec.status.Created? || rec.status.Joined? || rec.status.Finished?
          || (rec.status.Detached? && rec.release.DetachedOutside?))
    && (rec.place.InQueue? || rec.place.AtWorker? ==>
          inserting || rec.status == if !rec.release.Owned? then Detached else if begun then Running else Waiting)
    && (inserting ==> rec.place.InQueue? && rec.release.Owned? && (rec.status.Created? || rec.status.Joined?))
    && (rec.place.FreedBy? ==> rec.status.Joined? && rec.release.DetachedInPool?)
    && (rec.status.Finished? ==> rec.release.Owned? && rec.returned == Some(rec.result))
    && (rec.status.Created? && rec.place.Out? ==> rec.pushes == 0)
    && (rec.pushes == 0 ==> rec.status.Created?)
  }

  /** Who frees a task: nobody while it is owned, its owner when dropped or found finished,
      the worker when it was detached in the pool. */
  predicate FreedOnce(rec: Task, ownerFrees: bool) {
    match rec.release
    case Owned => rec.frees == 0 && !rec.status.Detached? && !rec.place.FreedBy? && !ownerFrees
    case Deleted => rec.frees == 1 && rec.place.Out? && (rec.status.Created? || rec.status.Joined?) && !ownerFrees
    case DetachedFinished =>
      rec.status.Joined? && rec.place.Out? && rec.frees == (if ownerFrees then 0 else 1)
    case DetachedInPool =>
      && !ownerFrees
      && (if rec.place.Out? then rec.status.Joined? && rec.frees == 1
          else rec.frees == 0 && (rec.place.FreedBy? || rec.status.Detached?))
    case DetachedOutside => rec.status.Detached? && rec.place.Out? && rec.frees == 0 && !ownerFrees
  }

  ghost predicate RecordOk(s: Pool, t: TaskId)
    requires t < |s.tasks|
  {
    var rec := s.tasks[t];
    && rec.owner < |s.clients|
    && Lifecycle(rec, Inserting(s, t), Begun(s, rec.place))
    && FreedOnce(rec, OwnerFrees(s, t))
    && rec.pushes == rec.runs + (if Unrun(s, rec.place) then 1 else 0)
  }

  // ---- positions ----

  /** The task a client's call is about. */
  function About(c: ClientPc): Option<TaskId> {
    match c
    case PushCheck(t) => Some(t)
    case PushLock(t) => Some(t)
    case PushInsert(t) => Some(t)
    case PushStatus(t) => Some(t)
    case PushSpawn(t) => Some(t)
    case PushUnlock(t) => Some(t)
    case PushSignal(t) => Some(t)
    case JoinRead(t) => Some(t)
    case JoinLock(t) => Some(t)
    case JoinBlocked(t) => Some(t)
    case JoinTake(t) => Some(t)
    case JoinMark(t, _) => Some(t)
    case DetachRead(t) => Some(t)
    case DetachLock(t) => Some(t)
    case DetachFree(t) => Some(t)
    case DropTask(t) => Some(t)
    case Ready(JoinedWith(t, _)) => Some(t)
    case _ => None
  }

  /** What the position of a client says about the task its call is about. */
  predicate Knows(pc: ClientPc, rec: Task) {
    && (pc.PushCheck? || Passed(pc) ==> rec.place.Out? && (rec.status.Created? || rec.status.Joined?))
    && (!pc.DetachFree? ==> rec.release.Owned?)
    && (pc.DetachFree? ==> rec.release.DetachedFinished?)
    && (pc.JoinLock? || pc.JoinBlocked? || pc.DetachLock? ==> !rec.status.Created?)
    && (pc.JoinTake? || pc.JoinMark? ==> rec.status.Finished?)
    && (pc.JoinMark? ==> rec.result == pc.value)
    && (pc.Ready? && pc.last.JoinedWith? ==>
          rec.status.Joined? && rec.place.Out? && rec.returned == Some(pc.last.value))
  }

  ghost predicate ClientKnows(s: Pool, c: nat, pc: ClientPc) {
    About(pc).Some? ==>
      && About(pc).value < |s.tasks|
      && s.tasks[About(pc).value].owner == c
      && Knows(pc, s.tasks[About(pc).value])
  }

  /** A worker that has run a function still holds the value that run returned. */
  ghost predicate HoldsValue(s: Pool, w: WorkerPc) {
    w.Finish? ==> w.task < |s.tasks| && s.tasks[w.task].returned == Some(w.value)
  }

  ghost predicate Tasks(s: Pool) {
    && Places(s)
    && (forall t :: 0 <= t < |s.tasks| ==> RecordOk(s, t))
    && (forall c :: 0 <= c < |s.clients| ==> ClientKnows(s, c, s.clients[c]))
    && (forall i :: 0 <= i < |s.workers| ==> HoldsValue(s, s.workers[i]))
  }

  // ---- steps about one task leave the others alone ----

  /** The task a worker is attached to, in any way. */
  function Attached(w: WorkerPc): Option<TaskId> {
    if w.FreeTask? then Some(w.task) else WorksOn(w)
  }

  predicate NoneOr(x: Option<TaskId>, t: TaskId) {
    x.None? || x.value == t
  }

  /** From s to s' only task t, its place in the queue, and threads attached to it or to
      nothing have changed. */
  ghost predicate OnlyAbout(s: Pool, s': Pool, t: TaskId) {
    && |s'.tasks| == |s.tasks| && |s'.clients| == |s.clients| && |s'.workers| >= |s.workers|
    && (forall u :: 0 <= u < |s.tasks| && u != t ==> s'.tasks[u] == s.tasks[u])
    && (s'.queue == s.queue || s'.queue == s.queue + [t] || s.queue == s'.queue + [t])
    && (forall i :: 0 <= i < |s.workers| ==>
          s'.workers[i] == s.workers[i] || (NoneOr(Attached(s.workers[i]), t) && NoneOr(Attached(s'.workers[i]), t)))
    && (forall c :: 0 <= c < |s.clients| ==>
          s'.clients[c] == s.clients[c] || (NoneOr(About(s.clients[c]), t) && NoneOr(About(s'.clients[c]), t)))
  }

  lemma OtherRecords(s: Pool, s': Pool, t: TaskId)
    requires Tasks(s) && OnlyAbout(s, s', t)
    ensures forall u :: 0 <= u < |s.tasks| && u != t ==> RecordOk(s', u) && TaskPlace(s', u, s'.tasks[u].place)
  {
    forall u | 0 <= u < |s.tasks| && u != t
      ensures RecordOk(s', u) && TaskPlace(s', u, s'.tasks[u].place)
    {
      assert RecordOk(s, u) && TaskPlace(s, u, s.tasks[u].place);
      var o := s.tasks[u].owner;
      assert s.clients[o] == PushStatus(u) ==> About(s.clients[o]) == Some(u);
      assert s.clients[o] == DetachFree(u) ==> About(s.clients[o]) == Some(u);
    }
  }

  /** What a step about t still has to show. */
  ghost predicate AboutKept(s: Pool, s': Pool, t: TaskId)
    requires OnlyAbout(s, s', t)
  {
    && (t < |s.tasks| ==> RecordOk(s', t) && TaskPlace(s', t, s'.tasks[t].place))
    && (forall i :: 0 <= i < |s'.workers| ==>
          (i >= |s.workers| || s'.workers[i] != s.workers[i] || Attached(s.workers[i]) == Some(t)) ==>
          WorkerPlace(s', i, s'.workers[i]) && HoldsValue(s', s'.workers[i]))
    && (forall c :: 0 <= c < |s.clients| ==>
          (s'.clients[c] != s.clients[c] || About(s.clients[c]) == Some(t)) ==> ClientKnows(s', c, s'.clients[c]))
    && QueuePlaces(s')
  }

  lemma AboutOneTask(s: Pool, s': Pool, t: TaskId)
    requires Tasks(s) && OnlyAbout(s, s', t) && AboutKept(s, s', t)
    ensures Tasks(s')
  {
    OtherRecords(s, s', t);
    forall i | 0 <= i < |s'.workers| ensures WorkerPlace(s', i, s'.workers[i]) && HoldsValue(s', s'.workers[i]) {
      if i < |s.workers| && s'.workers[i] == s.workers[i] {
        assert WorkerPlace(s, i, s.workers[i]) && HoldsValue(s, s.workers[i]);
      }
    }
    forall c | 0 <= c < |s'.clients| ensures ClientKnows(s', c, s'.clients[c]) {
      if s'.clients[c] == s.clients[c] {
        assert ClientKnows(s, c, s.clients[c]);
      }
    }
  }

  /** Only its owner is in a call about a task. */
  lemma OnlyOwnerKnows(s: Pool, s': Pool, t: TaskId)
    requires Tasks(s) && t < |s.tasks| && OnlyAbout(s, s', t)
    requires var o := s.tasks[t].owner; o < |s.clients| && ClientKnows(s', o, s'.clients[o])
    requires forall c :: 0 <= c < |s.clients| && c != s.tasks[t].owner ==> s'.clients[c] == s.clients[c]
    ensures forall c :: 0 <= c < |s.clients| ==>
      (s'.clients[c] != s.clients[c] || About(s.clients[c]) == Some(t)) ==> ClientKnows(s', c, s'.clients[c])
  {
    forall c | 0 <= c < |s.clients| && About(s.clients[c]) == Some(t)
      ensures c == s.tasks[t].owner
    {
      assert ClientKnows(s, c, s.clients[c]);
    }
  }

  // ---- worker steps ----

  /** Worker i moved while attached to t or to nothing, and wrote at most t's record. */
  ghost predicate WorkerOn(s: Pool, s': Pool, i: nat, t: TaskId) {
    && i < |s.workers| && |s'.workers| == |s.workers| && s'.workers == s.workers[i := s'.workers[i]]
    && t < |s.tasks| && |s'.tasks| == |s.tasks| && s'.tasks == s.tasks[t := s'.tasks[t]]
    && s'.clients == s.clients
    && (s'.queue == s.queue || s.queue == s'.queue + [t])
    && NoneOr(Attached(s.workers[i]), t) && NoneOr(Attached(s'.workers[i]), t)
    && s'.tasks[t].owner == s.tasks[t].owner
  }

  lemma WorkerTouched(s: Pool, s': Pool, i: nat, t: TaskId)
    requires Tasks(s) && WorkerOn(s, s', i, t)
    requires RecordOk(s', t) && TaskPlace(s', t, s'.tasks[t].place)
    requires WorkerPlace(s', i, s'.workers[i]) && HoldsValue(s', s'.workers[i])
    requires var pc := s.clients[s.tasks[t].owner]; About(pc) == Some(t) ==> Knows(pc, s'.tasks[t])
    requires if s'.queue == s.queue then Attached(s.workers[i]) == Some(t) else s.queue == s'.queue + [t]
    ensures Tasks(s')
  {
    var o := s.tasks[t].owner;
    assert ClientKnows(s, o, s.clients[o]);
    OnlyOwnerKnows(s, s', t);
    assert WorkerPlace(s, i, s.workers[i]);
    if s'.queue != s.queue {
      assert s.queue[|s.queue| - 1] == t;
    }
    forall j | 0 <= j < |s.workers| && j != i ensures Attached(s.workers[j]) != Some(t) {
      assert WorkerPlace(s, j, s.workers[j]);
    }
    forall k | 0 <= k < |s'.queue|
      ensures s'.queue[k] < |s'.tasks| && s'.tasks[s'.queue[k]].place == InQueue(k)
    {
      assert s.queue[k] == s'.queue[k];
    }
    AboutOneTask(s, s', t);
  }

  /** The facts about the one task worker i is about to touch. */
  lemma TouchedFacts(s: Pool, i: nat, t: TaskId)
    requires Tasks(s) && i < |s.workers| && t < |s.tasks|
    ensures RecordOk(s, t) && TaskPlace(s, t, s.tasks[t].place)
    ensures WorkerPlace(s, i, s.workers[i]) && HoldsValue(s, s.workers[i])
    ensures var pc := s.clients[s.tasks[t].owner]; About(pc) == Some(t) ==> Knows(pc, s.tasks[t])
  {
    assert RecordOk(s, t);
    assert ClientKnows(s, s.tasks[t].owner, s.clients[s.tasks[t].owner]);
  }

  lemma PopKeepsTasks(s: Pool, i: nat, value: int, wake: Option<nat>)
    requires Control(s) && Tasks(s) && WorkerEnabled(s, i, wake) && s.workers[i].Pop?
    ensures Tasks(WorkerStep(s, i, value, wake))
  {
    assert WorkerOk(s, s.workers[i]);
    var t := s.queue[|s.queue| - 1];
    TouchedFacts(s, i, t);
    WorkerTouched(s, WorkerStep(s, i, value, wake), i, t);
  }

  /** Taking a task to its function: 132 to 142. */
  lemma CarryKeepsTasks(s: Pool, i: nat, value: int, wake: Option<nat>)
    requires Tasks(s) && WorkerEnabled(s, i, wake)
    requires s.workers[i].CountUp? || (s.workers[i].Unlock? && s.workers[i].popped.Some?) || s.workers[i].Start?
    ensures Tasks(WorkerStep(s, i, value, wake))
  {
    hide Tasks;
    var t := Attached(s.workers[i]).value;
    AttachedPlace(s, i);
    TouchedFacts(s, i, t);
    WorkerTouched(s, WorkerStep(s, i, value, wake), i, t);
  }

  lemma AttachedPlace(s: Pool, i: nat)
    requires Tasks(s) && i < |s.workers|
    ensures WorkerPlace(s, i, s.workers[i])
  {
  }

  lemma RunKeepsTasks(s: Pool, i: nat, value: int, wake: Option<nat>)
    requires Tasks(s) && WorkerEnabled(s, i, wake) && s.workers[i].Run?
    ensures Tasks(WorkerStep(s, i, value, wake))
  {
    var t := s.workers[i].task;
    assert WorkerPlace(s, i, s.workers[i]);
    TouchedFacts(s, i, t);
    WorkerTouched(s, WorkerStep(s, i, value, wake), i, t);
  }

  lemma FinishKeepsTasks(s: Pool, i: nat, value: int, wake: Option<nat>)
    requires Tasks(s) && WorkerEnabled(s, i, wake) && s.workers[i].Finish?
    ensures Tasks(WorkerStep(s, i, value, wake))
  {
    var t := s.workers[i].task;
    assert WorkerPlace(s, i, s.workers[i]);
    TouchedFacts(s, i, t);
    WorkerTouched(s, WorkerStep(s, i, value, wake), i, t);
  }

  lemma FreeKeepsTasks(s: Pool, i: nat, value: int, wake: Option<nat>)
    requires Tasks(s) && WorkerEnabled(s, i, wake) && s.workers[i].FreeTask?
    ensures Tasks(WorkerStep(s, i, value, wake))
  {
    var t := s.workers[i].task;
    assert WorkerPlace(s, i, s.workers[i]);
    TouchedFacts(s, i, t);
    WorkerTouched(s, WorkerStep(s, i, value, wake), i, t);
  }

  /** Positions that RecordOk reads from the owner. */
  predicate SpeaksForRecord(pc: ClientPc) {
    pc.PushStatus? || pc.DetachFree?
  }

  /** A step that touches no task: threads attached to nothing move, no record changes. */
  lemma Untouched(s: Pool, s': Pool, c: nat)
    requires Tasks(s) && s'.tasks == s.tasks && s'.queue == s.queue
    requires |s'.workers| >= |s.workers| && |s'.clients| == |s.clients|
    requires forall i :: 0 <= i < |s.workers| ==>
      s'.workers[i] == s.workers[i] || (Attached(s.workers[i]).None? && Attached(s'.workers[i]).None?)
    requires forall i :: 0 <= i < |s'.workers| && (i >= |s.workers| || s'.workers[i] != s.workers[i]) ==>
      Attached(s'.workers[i]).None? && !s'.workers[i].Signal?
    requires c < |s.clients| && s'.clients == s.clients[c := s'.clients[c]]
    requires s'.clients[c] == s.clients[c] ||
      (ClientKnows(s', c, s'.clients[c]) && !SpeaksForRecord(s.clients[c]) && !SpeaksForRecord(s'.clients[c]))
    ensures Tasks(s')
  {
    forall t | 0 <= t < |s.tasks| ensures RecordOk(s', t) && TaskPlace(s', t, s'.tasks[t].place) {
      assert RecordOk(s, t) && TaskPlace(s, t, s.tasks[t].place);
    }
    forall i | 0 <= i < |s.workers| ensures WorkerPlace(s', i, s'.workers[i]) && HoldsValue(s', s'.workers[i]) {
      assert WorkerPlace(s, i, s.workers[i]) && HoldsValue(s, s.workers[i]);
    }
    forall d | 0 <= d < |s.clients| ensures ClientKnows(s', d, s'.clients[d]) {
      assert ClientKnows(s, d, s.clients[d]);
    }
  }

  /** The same when no client moves. */
  lemma UntouchedByWorker(s: Pool, s': Pool)
    requires Tasks(s) && s'.tasks == s.tasks && s'.queue == s.queue && s'.clients == s.clients
    requires |s'.workers| == |s.workers|
    requires forall i :: 0 <= i < |s.workers| && s'.workers[i] != s.workers[i] ==>
      Attached(s.workers[i]).None? && Attached(s'.workers[i]).None? && !s'.workers[i].Signal?
    ensures Tasks(s')
  {
    forall t | 0 <= t < |s.tasks| ensures RecordOk(s', t) && TaskPlace(s', t, s'.tasks[t].place) {
      assert RecordOk(s, t) && TaskPlace(s, t, s.tasks[t].place);
    }
    forall i | 0 <= i < |s.workers| ensures WorkerPlace(s', i, s'.workers[i]) && HoldsValue(s', s'.workers[i]) {
      assert WorkerPlace(s, i, s.workers[i]) && HoldsValue(s, s.workers[i]);
    }
    forall d | 0 <= d < |s.clients| ensures ClientKnows(s', d, s'.clients[d]) {
      assert ClientKnows(s, d, s.clients[d]);
    }
  }

  lemma SignalKeepsTasks(s: Pool, i: nat, value: int, wake: Option<nat>)
    requires Tasks(s) && WorkerEnabled(s, i, wake) && s.workers[i].Signal?
    ensures Tasks(WorkerStep(s, i, value, wake))
  {
    if wake.Some? {
      assert ClientKnows(s, wake.value, s.clients[wake.value]);
      Untouched(s, WorkerStep(s, i, value, wake), wake.value);
    } else {
      UntouchedByWorker(s, WorkerStep(s, i, value, wake));
    }
  }

  lemma LoopKeepsTasks(s: Pool, i: nat, value: int, wake: Option<nat>)
    requires Control(s) && Tasks(s) && WorkerEnabled(s, i, wake)
    requires Attached(s.workers[i]).None? && !s.workers[i].Pop? && !s.workers[i].Signal?
    ensures Tasks(WorkerStep(s, i, value, wake))
  {
    assert WorkerOk(s, s.workers[i]);
    UntouchedByWorker(s, WorkerStep(s, i, value, wake));
  }

  lemma WorkerKeepsTasks(s: Pool, i: nat, value: int, wake: Option<nat>)
    requires Control(s) && Tasks(s) && WorkerEnabled(s, i, wake)
    ensures Tasks(WorkerStep(s, i, value, wake))
  {
    var w := s.workers[i];
    if w.Pop? {
      PopKeepsTasks(s, i, value, wake);
    } else if w.Signal? {
      SignalKeepsTasks(s, i, value, wake);
    } else if Attached(w).None? {
      LoopKeepsTasks(s, i, value, wake);
    } else if w.Run? {
      RunKeepsTasks(s, i, value, wake);
    } else if w.Finish? {
      FinishKeepsTasks(s, i, value, wake);
    } else if w.FreeTask? {
      FreeKeepsTasks(s, i, value, wake);
    } else {
      CarryKeepsTasks(s, i, value, wake);
    }
  }

  // ---- client steps ----

  /** Client c moved in a call about its task t and wrote at most t's record. */
  ghost predicate ClientOn(s: Pool, s': Pool, c: nat, t: TaskId) {
    && c < |s.clients| && |s'.clients| == |s.clients| && s'.clients == s.clients[c := s'.clients[c]]
    && t < |s.tasks| && |s'.tasks| == |s.tasks| && s'.tasks == s.tasks[t := s'.tasks[t]]
    && s.tasks[t].owner == c && s'.tasks[t].owner == c
    && s'.workers == s.workers
    && (s'.queue == s.queue || s'.queue == s.queue + [t])
    && About(s.clients[c]) == Some(t) && NoneOr(About(s'.clients[c]), t)
  }

  lemma ClientTouched(s: Pool, s': Pool, c: nat, t: TaskId)
    requires Tasks(s) && ClientOn(s, s', c, t)
    requires RecordOk(s', t) && TaskPlace(s', t, s'.tasks[t].place)
    requires ClientKnows(s', c, s'.clients[c])
    requires s'.queue == s.queue ==> s'.tasks[t].place == s.tasks[t].place
    requires s'.queue != s.queue ==> s.tasks[t].place.Out? && s'.tasks[t].place == InQueue(|s.queue|)
    requires s'.tasks[t].returned != s.tasks[t].returned ==> s.tasks[t].place.Out?
    ensures Tasks(s')
  {
    OnlyOwnerKnows(s, s', t);
    forall i | 0 <= i < |s.workers| && Attached(s.workers[i]) == Some(t)
      ensures WorkerPlace(s', i, s'.workers[i]) && HoldsValue(s', s'.workers[i])
    {
      assert WorkerPlace(s, i, s.workers[i]) && HoldsValue(s, s.workers[i]);
    }
    AboutOneTask(s, s', t);
  }

  /** The facts about the task of client c's call. */
  lemma CallFacts(s: Pool, c: nat, t: TaskId)
    requires Tasks(s) && c < |s.clients| && About(s.clients[c]) == Some(t)
    ensures t < |s.tasks| && s.tasks[t].owner == c && Knows(s.clients[c], s.tasks[t])
    ensures RecordOk(s, t) && TaskPlace(s, t, s.tasks[t].place)
  {
    assert ClientKnows(s, c, s.clients[c]);
  }

  lemma PushKeepsTasks(s: Pool, c: nat, wake: Option<nat>)
    requires Tasks(s) && ClientEnabled(s, c, wake)
    requires s.clients[c].PushInsert? || s.clients[c].PushStatus?
    ensures Tasks(ClientStep(s, c, wake))
  {
    var t := s.clients[c].task;
    CallFacts(s, c, t);
    ClientTouched(s, ClientStep(s, c, wake), c, t);
  }

  lemma JoinKeepsTasks(s: Pool, c: nat, wake: Option<nat>)
    requires Tasks(s) && ClientEnabled(s, c, wake)
    requires s.clients[c].JoinMark?
    ensures Tasks(ClientStep(s, c, wake))
  {
    var t := s.clients[c].task;
    CallFacts(s, c, t);
    ClientTouched(s, ClientStep(s, c, wake), c, t);
  }

  lemma DetachKeepsTasks(s: Pool, c: nat, wake: Option<nat>)
    requires Tasks(s) && ClientEnabled(s, c, wake)
    requires s.clients[c].DetachLock? || s.clients[c].DetachFree?
    ensures Tasks(ClientStep(s, c, wake))
  {
    var t := s.clients[c].task;
    CallFacts(s, c, t);
    ClientTouched(s, ClientStep(s, c, wake), c, t);
  }

  lemma DropKeepsTasks(s: Pool, c: nat, wake: Option<nat>)
    requires Tasks(s) && ClientEnabled(s, c, wake) && s.clients[c].DropTask?
    ensures Tasks(ClientStep(s, c, wake))
  {
    var t := s.clients[c].task;
    CallFacts(s, c, t);
    ClientTouched(s, ClientStep(s, c, wake), c, t);
  }

  predicate WritesRecord(pc: ClientPc) {
    pc.PushInsert? || pc.PushStatus? || pc.JoinMark? || pc.DetachLock? || pc.DetachFree? || pc.DropTask?
  }

  /** Steps of a client that start or wake workers. */
  predicate MovesWorkers(pc: ClientPc) {
    pc.PushSpawn? || pc.PushSignal? || pc.DelBroadcast?
  }

  lemma WakingKeepsTasks(s: Pool, c: nat, wake: Option<nat>)
    requires Tasks(s) && ClientEnabled(s, c, wake) && MovesWorkers(s.clients[c])
    ensures Tasks(ClientStep(s, c, wake))
  {
    assert ClientKnows(s, c, s.clients[c]);
    Untouched(s, ClientStep(s, c, wake), c);
  }

  lemma ReadingKeepsTasks(s: Pool, c: nat, wake: Option<nat>)
    requires Tasks(s) && ClientEnabled(s, c, wake) && !WritesRecord(s.clients[c]) && !MovesWorkers(s.clients[c])
    ensures Tasks(ClientStep(s, c, wake))
  {
    assert ClientKnows(s, c, s.clients[c]);
    Untouched(s, ClientStep(s, c, wake), c);
  }

  lemma ClientKeepsTasks(s: Pool, c: nat, wake: Option<nat>)
    requires Control(s) && Tasks(s) && ClientEnabled(s, c, wake)
    ensures Tasks(ClientStep(s, c, wake))
  {
    var pc := s.clients[c];
    if pc.PushInsert? || pc.PushStatus? {
      PushKeepsTasks(s, c, wake);
    } else if pc.JoinMark? {
      JoinKeepsTasks(s, c, wake);
    } else if pc.DetachLock? || pc.DetachFree? {
      DetachKeepsTasks(s, c, wake);
    } else if pc.DropTask? {
      DropKeepsTasks(s, c, wake);
    } else if MovesWorkers(pc) {
      WakingKeepsTasks(s, c, wake);
    } else {
      ReadingKeepsTasks(s, c, wake);
    }
  }

  lemma InvokeKeepsTasks(s: Pool, c: nat, call: Call)
    requires Tasks(s) && MayInvoke(s, c, call)
    ensures Tasks(Apply(s, Invoke(c, call)))
  {
    if !call.DeletePool? {
      assert RecordOk(s, call.task);
    }
    Untouched(s, Apply(s, Invoke(c, call)), c);
  }

  lemma SpuriousKeepsTasks(s: Pool, a: Action)
    requires Tasks(s) && Enabled(s, a) && (a.WorkerSpurious? || a.ClientSpurious? || a.TimeOut?)
    ensures Tasks(Apply(s, a))
  {
    if a.WorkerSpurious? {
      UntouchedByWorker(s, Apply(s, a));
    } else {
      assert ClientKnows(s, a.c, s.clients[a.c]);
      Untouched(s, Apply(s, a), a.c);
    }
  }

  lemma NewTaskKeepsTasks(s: Pool, c: nat)
    requires Tasks(s) && Enabled(s, NewTask(c))
    ensures Tasks(Apply(s, NewTask(c)))
  {
    var s' := Apply(s, NewTask(c));
    forall t | 0 <= t < |s.tasks| ensures RecordOk(s', t) && TaskPlace(s', t, s'.tasks[t].place) {
      assert RecordOk(s, t) && TaskPlace(s, t, s.tasks[t].place);
    }
    forall d | 0 <= d < |s.clients| ensures ClientKnows(s', d, s'.clients[d]) {
      assert ClientKnows(s, d, s.clients[d]);
    }
    forall i | 0 <= i < |s.workers| ensures WorkerPlace(s', i, s'.workers[i]) && HoldsValue(s', s'.workers[i]) {
      assert WorkerPlace(s, i, s.workers[i]) && HoldsValue(s, s.workers[i]);
    }
  }

  /** Every step keeps Tasks. */
  lemma TasksInductive(s: Pool, a: Action)
    requires Control(s) && Tasks(s) && Enabled(s, a)
    ensures Tasks(Apply(s, a))
  {
    match a
    case WorkerAct(i, value, wake) => WorkerKeepsTasks(s, i, value, wake);
    case ClientAct(c, wake) => ClientKeepsTasks(s, c, wake);
    case WorkerSpurious(i) => SpuriousKeepsTasks(s, a);
    case ClientSpurious(c) => SpuriousKeepsTasks(s, a);
    case TimeOut(c) => SpuriousKeepsTasks(s, a);
    case Invoke(c, call) => InvokeKeepsTasks(s, c, call);
    case NewTask(c) => NewTaskKeepsTasks(s, c);
  }
}
