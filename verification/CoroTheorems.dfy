/** What holds in every run of the scheduler. */
module CoroTheorems {
  import opened Common
  import opened CoroModel

  // ---- safety ----

  /** A coroutine's counters against its whole program. */
  ghost predicate CoroOk(c: Coro) {
    if c.finished then c.ret == Result(c.start) && c.switches == Yields(c.start)
    else c.switches + Yields(c.prog) == Yields(c.start) && Result(c.prog) == Result(c.start)
  }

  /** Identities are used once, and none is lost. */
  ghost predicate Accounted(s: State) {
    var all := s.list + s.returned;
    && (forall i, j :: 0 <= i < j < |all| ==> all[i].id != all[j].id)
    && (forall i :: 0 <= i < |all| ==> all[i].id < s.nextId && CoroOk(all[i]))
    && |all| == s.nextId
  }

  ghost predicate AllUnfinished(list: seq<Coro>) {
    forall i :: 0 <= i < |list| ==> !list[i].finished
  }

  /** No fault; coro_this_ptr names the running context; the flag is up exactly while a
      coroutine runs; a finished coroutine is listed only while the scheduler is in control, and
      then it is the only one. */
  ghost predicate Control(s: State) {
    && !s.fault
    && (s.waiting <==> s.at.Run?)
    && (forall c :: c in s.returned ==> c.finished)
    && match s.at
       case Main => s.current == None && AllUnfinished(s.list)
       case Loop => s.current == None &&
         forall i, j :: 0 <= i < j < |s.list| ==> !(s.list[i].finished && s.list[j].finished)
       case Run(k) => k < |s.list| && s.current == Some(s.list[k].id) && AllUnfinished(s.list)
  }

  ghost predicate Sound(s: State) {
    Accounted(s) && Control(s)
  }

  /** One list cell changes, but not its identity. */
  lemma AccountedUpdate(s: State, k: nat, c: Coro)
    requires Accounted(s) && k < |s.list| && c.id == s.list[k].id && CoroOk(c)
    ensures Accounted(s.(list := s.list[k := c]))
  {
    var t := s.(list := s.list[k := c]);
    var all, all' := s.list + s.returned, t.list + t.returned;
    assert all' == all[k := c];
    assert forall i :: 0 <= i < |all| ==> all'[i].id == all[i].id;
    forall i, j | 0 <= i < j < |all'| ensures all'[i].id != all'[j].id {
      assert all[i].id != all[j].id;
    }
  }

  /** A new coroutine at the head. */
  lemma AccountedNew(s: State, prog: Prog)
    requires Accounted(s)
    ensures Accounted(s.(list := [NewCoro(s.nextId, prog)] + s.list, nextId := s.nextId + 1))
  {
    var t := s.(list := [NewCoro(s.nextId, prog)] + s.list, nextId := s.nextId + 1);
    var all, all' := s.list + s.returned, t.list + t.returned;
    assert all' == [NewCoro(s.nextId, prog)] + all;
    assert forall i :: 0 < i < |all'| ==> all'[i] == all[i - 1];
  }

  /** A coroutine moves from the list to the caller. */
  lemma AccountedReturn(s: State, f: nat)
    requires Accounted(s) && f < |s.list|
    ensures Accounted(s.(list := s.list[..f] + s.list[f + 1..], returned := s.returned + [s.list[f]]))
  {
    var t := s.(list := s.list[..f] + s.list[f + 1..], returned := s.returned + [s.list[f]]);
    var all, all' := s.list + s.returned, t.list + t.returned;
    var n := |all|;
    forall i | 0 <= i < n ensures all'[i] == all[if i < f then i else if i == n - 1 then f else i + 1] {
    }
  }

  lemma {:induction false} IndexOfIs(list: seq<Coro>, k: nat)
    requires k < |list| && forall i :: 0 <= i < k ==> list[i].id != list[k].id
    ensures IndexOf(list, list[k].id) == k
  {
    if k > 0 {
      assert forall i :: 0 <= i < k - 1 ==> list[1..][i] == list[i + 1];
      assert list[1..][k - 1] == list[k];
      IndexOfIs(list[1..], k - 1);
    }
  }

  lemma {:induction false} FirstFinishedIs(list: seq<Coro>)
    ensures var f := FirstFinished(list);
      && f <= |list| && (f < |list| ==> list[f].finished)
      && forall i :: 0 <= i < f ==> !list[i].finished
  {
    if list != [] && !list[0].finished {
      FirstFinishedIs(list[1..]);
      assert forall i :: 1 <= i < |list| ==> list[i] == list[1..][i - 1];
    }
  }

  /** Transfer to an unfinished coroutine. */
  lemma ResumeSound(s: State, k: nat, now: int)
    requires Accounted(s) && k < |s.list| && !s.fault && s.waiting
    requires forall c :: c in s.returned ==> c.finished
    requires AllUnfinished(s.list)
    ensures Sound(Resume(s, k, now))
  {
    var all := s.list + s.returned;
    assert all[k] == s.list[k];
    AccountedUpdate(s, k, s.list[k].(lastChecked := now, resumed := s.list[k].resumed + 1));
    var t := Resume(s, k, now);
    assert Accounted(t) by {
      assert t.list + t.returned == s.(list := t.list).list + s.returned;
    }
  }

  lemma YieldSound(s: State, k: nat, now: int)
    requires s.at == Run(k) && k < |s.list| && Control(s)
    requires Accounted(s.(list := s.list[k := s.list[k].(switches := s.list[k].switches + 1)]))
    requires forall i :: 0 <= i < k ==> s.list[i].id != s.list[k].id
    ensures Sound(YieldNow(s, now))
  {
    IndexOfIs(s.list, k);
    var t := s.(list := s.list[k := s.list[k].(switches := s.list[k].switches + 1)]);
    if k + 1 < |s.list| {
      ResumeSound(t, k + 1, now);
    }
  }

  lemma RunStepSound(s: State, k: nat, now: int)
    requires Sound(s) && s.at == Run(k)
    ensures k < |s.list| && Sound(RunStep(s, k, now))
  {
    var c, all := s.list[k], s.list + s.returned;
    assert all[k] == c && CoroOk(c);
    assert forall i :: 0 <= i < k ==> all[i] == s.list[i];
    match c.prog
    case Return(r) =>
      AccountedUpdate(s, k, Checked(c.(finished := true, ret := r), now));
    case Yield(rest) =>
      var t := s.(list := s.list[k := c.(prog := rest)]);
      AccountedUpdate(s, k, c.(prog := rest, switches := c.switches + 1));
      assert t.list[k := t.list[k].(switches := t.list[k].switches + 1)] == s.list[k := c.(prog := rest,
          switches := c.switches + 1)];
      YieldSound(t, k, now);
    case Tally(rest) => AccountedUpdate(s, k, Checked(c.(prog := rest), now));
    case Stamp(rest) => AccountedUpdate(s, k, c.(prog := rest, lastChecked := now));
    case Spawn(child, rest) =>
      AccountedUpdate(s, k, c.(prog := rest));
      AccountedNew(s.(list := s.list[k := c.(prog := rest)]), child);
  }

  lemma LoopStepSound(s: State, now: int)
    requires Sound(s) && s.at == Loop
    ensures Sound(LoopStep(s, now))
  {
    FirstFinishedIs(s.list);
    var f := FirstFinished(s.list);
    if s.list != [] && f < |s.list| {
      AccountedReturn(s, f);
      var t := LoopStep(s, now);
      assert forall i :: 0 <= i < |t.list| ==> t.list[i] == s.list[if i < f then i else i + 1];
    } else if s.list != [] {
      ResumeSound(s.(waiting := true, schedSwitches := s.schedSwitches + 1), 0, now);
    }
  }

  lemma SoundInductive(s: State, a: Action)
    requires Sound(s) && Legal(s, a)
    ensures Sound(Apply(s, a))
  {
    match a
    case Create(prog) => AccountedNew(s, prog);
    case CallWait =>
    case Tick(now) =>
      var t := s.(clock := now);
      if s.at.Run? { RunStepSound(t, s.at.k, now); } else { LoopStepSound(t, now); }
  }

  lemma {:induction false} SoundAlways(s: State, run: seq<Action>)
    requires Sound(s) && LegalRun(s, run)
    ensures Sound(After(s, run))
    decreases |run|
  {
    if run != [] {
      SoundInductive(s, run[0]);
      SoundAlways(Apply(s, run[0]), run[1..]);
    }
  }

  /** Never resume the dead: in every run, control has never gone to a finished coroutine, the
      "no place to return" exit was not taken, coro_this_ptr names the running context, and at
      most one listed coroutine is finished, and none while a coroutine or the main program
      runs. */
  lemma NeverResumeTheDead(t0: int, run: seq<Action>)
    requires LegalRun(Initial(t0), run)
    ensures var s := After(Initial(t0), run);
      && !s.fault
      && (s.at.Run? ==> s.at.k < |s.list| && s.current == Some(s.list[s.at.k].id) && s.waiting)
      && (!s.at.Run? ==> s.current == None)
      && (!s.at.Loop? ==> AllUnfinished(s.list))
      && forall i, j :: 0 <= i < j < |s.list| ==> !(s.list[i].finished && s.list[j].finished)
  {
    SoundAlways(Initial(t0), run);
  }

  lemma RunNothing(s: State)
    ensures LegalRun(s, []) && After(s, []) == s
  {
  }

  /** One more action at the end of a run. */
  lemma {:induction false} RunSnoc(s: State, run: seq<Action>, a: Action)
    requires LegalRun(s, run) && Legal(After(s, run), a)
    ensures LegalRun(s, run + [a]) && After(s, run + [a]) == Apply(After(s, run), a)
    decreases |run|
  {
    if run == [] {
      assert [] + [a] == [a] && [a][1..] == [];
    } else {
      assert (run + [a])[1..] == run[1..] + [a];
      RunSnoc(Apply(s, run[0]), run[1..], a);
    }
  }

  // ---- completeness and termination ----

  ghost predicate HandedOut(s: State, id: nat) {
    exists i :: 0 <= i < |s.returned| && s.returned[i].id == id
  }

  /** Whatever coro_sched_wait has handed out had finished, with its result and with one switch
      for each time it yielded; nothing is handed out twice, and when the list is empty every
      coroutine ever created has been handed out. */
  lemma EachReturnedOnce(t0: int, run: seq<Action>)
    requires LegalRun(Initial(t0), run)
    ensures var s := After(Initial(t0), run);
      && (forall c :: c in s.returned ==> c.finished && c.ret == Result(c.start) && c.switches == Yields(c.start))
      && (forall i, j :: 0 <= i < j < |s.returned| ==> s.returned[i].id != s.returned[j].id)
      && (s.list == [] ==> forall id :: 0 <= id < s.nextId ==> HandedOut(s, id))
  {
    hide LegalRun, After, CoroOk;
    SoundAlways(Initial(t0), run);
    SoundReturns(After(Initial(t0), run));
  }

  lemma SoundReturns(s: State)
    requires Sound(s)
    ensures forall c :: c in s.returned ==> c.finished && c.ret == Result(c.start) && c.switches == Yields(c.start)
    ensures forall i, j :: 0 <= i < j < |s.returned| ==> s.returned[i].id != s.returned[j].id
    ensures s.list == [] ==> forall id :: 0 <= id < s.nextId ==> HandedOut(s, id)
  {
    var all := s.list + s.returned;
    assert forall i :: 0 <= i < |s.returned| ==> all[|s.list| + i] == s.returned[i];
    if s.list == [] {
      forall id | 0 <= id < s.nextId ensures HandedOut(s, id) {
        Pigeonhole(s, id);
      }
    }
  }

  function Below(n: nat): (r: set<nat>)
    ensures |r| == n
    ensures forall k: nat :: k in r <==> k < n
  {
    if n == 0 then {} else
      var r := Below(n - 1);
      assert n - 1 !in r;
      r + {n - 1}
  }

  /** n distinct identities below n are all of them. */
  lemma Pigeonhole(s: State, id: nat)
    requires forall i, j :: 0 <= i < j < |s.returned| ==> s.returned[i].id != s.returned[j].id
    requires forall i :: 0 <= i < |s.returned| ==> s.returned[i].id < |s.returned|
    requires id < |s.returned|
    ensures HandedOut(s, id)
  {
    var n := |s.returned|;
    var ids := set k | 0 <= k < n :: s.returned[k].id;
    IdsCard(s.returned);
    if id !in ids {
      CardMonotone(ids, Below(n) - {id});
      assert false;
    }
  }

  lemma {:induction false} IdsCard(cs: seq<Coro>)
    requires forall i, j :: 0 <= i < j < |cs| ==> cs[i].id != cs[j].id
    ensures |set k | 0 <= k < |cs| :: cs[k].id| == |cs|
  {
    if cs != [] {
      var last := |cs| - 1;
      IdsCard(cs[..last]);
      var less := set k | 0 <= k < last :: cs[..last][k].id;
      assert (set k | 0 <= k < |cs| :: cs[k].id) == less + {cs[last].id};
    }
  }

  lemma {:induction false} CardMonotone(a: set<nat>, b: set<nat>)
    requires a <= b
    ensures |a| <= |b|
  {
    assert b == a + (b - a);
  }

  /** Work left in the listed coroutines. */
  function Size(p: Prog): (n: nat)
    ensures n > 0
  {
    match p
    case Return(_) => 1
    case Yield(rest) => 1 + Size(rest)
    case Tally(rest) => 1 + Size(rest)
    case Stamp(rest) => 1 + Size(rest)
    case Spawn(child, rest) => 1 + Size(child) + Size(rest)
  }

  function Work(list: seq<Coro>): nat {
    if list == [] then 0
    else Work(list[1..]) + if list[0].finished then 0 else Size(list[0].prog)
  }

  lemma {:induction false} WorkUpdate(list: seq<Coro>, k: nat, c: Coro)
    requires k < |list|
    ensures Work(list[k := c]) ==
      Work(list) - (if list[k].finished then 0 else Size(list[k].prog)) + (if c.finished then 0 else Size(c.prog))
  {
    if k == 0 {
      assert list[0 := c][1..] == list[1..];
    } else {
      assert list[k := c][1..] == list[1..][k - 1 := c];
      WorkUpdate(list[1..], k - 1, c);
    }
  }

  lemma {:induction false} WorkRemove(list: seq<Coro>, f: nat)
    requires f < |list|
    ensures Work(list[..f] + list[f + 1..]) <= Work(list)
  {
    if f == 0 {
      assert list[..0] + list[1..] == list[1..];
    } else {
      assert (list[..f] + list[f + 1..])[1..] == list[1..][..f - 1] + list[1..][f..];
      WorkRemove(list[1..], f - 1);
    }
  }

  /** How many more ticks a wait can take. */
  function Fuel(s: State): nat {
    match s.at
    case Main => 0
    case Loop => 2 * Work(s.list) + 1
    case Run(_) => 2 * Work(s.list)
  }

  lemma ResumeWork(s: State, k: nat, now: int)
    requires k < |s.list|
    ensures Work(Resume(s, k, now).list) == Work(s.list)
  {
    WorkUpdate(s.list, k, s.list[k].(lastChecked := now, resumed := s.list[k].resumed + 1));
  }

  lemma YieldWork(s: State, now: int)
    ensures Work(YieldNow(s, now).list) == Work(s.list)
  {
    if s.current.Some? && IndexOf(s.list, s.current.value) < |s.list| {
      var i := IndexOf(s.list, s.current.value);
      var t := s.(list := s.list[i := s.list[i].(switches := s.list[i].switches + 1)]);
      WorkUpdate(s.list, i, t.list[i]);
      if i + 1 < |s.list| { ResumeWork(t, i + 1, now); }
    }
  }

  /** Every tick uses up fuel. */
  lemma TickBurns(s: State, now: int)
    requires Sound(s) && Legal(s, Tick(now))
    ensures Fuel(Apply(s, Tick(now))) < Fuel(s)
  {
    SoundInductive(s, Tick(now));
    var t := s.(clock := now);
    if s.at.Run? {
      var k := s.at.k;
      var c := s.list[k];
      match c.prog
      case Return(r) => WorkUpdate(s.list, k, Checked(c.(finished := true, ret := r), now));
      case Yield(rest) =>
        WorkUpdate(s.list, k, c.(prog := rest));
        YieldWork(t.(list := s.list[k := c.(prog := rest)]), now);
      case Tally(rest) => WorkUpdate(s.list, k, Checked(c.(prog := rest), now));
      case Stamp(rest) => WorkUpdate(s.list, k, c.(prog := rest, lastChecked := now));
      case Spawn(child, rest) =>
        WorkUpdate(s.list, k, c.(prog := rest));
        var list := s.list[k := c.(prog := rest)];
        assert ([NewCoro(s.nextId, child)] + list)[1..] == list;
    } else {
      FirstFinishedIs(s.list);
      if s.list != [] {
        var f := FirstFinished(s.list);
        if f < |s.list| { WorkRemove(s.list, f); } else { ResumeWork(t.(waiting := true,
          schedSwitches := s.schedSwitches + 1), 0, now); }
      }
    }
  }

  predicate TicksOnly(run: seq<Action>) {
    forall i :: 0 <= i < |run| ==> run[i].Tick?
  }

  /** Every wait ends: it takes a bounded number of ticks, and until it ends another tick is
      possible at any later time. */
  lemma {:induction false} EveryWaitEnds(s: State, run: seq<Action>, now: int)
    requires Sound(s) && LegalRun(s, run) && TicksOnly(run) && now >= After(s, run).clock
    ensures |run| <= Fuel(s)
    ensures !After(s, run).at.Main? ==> Legal(After(s, run), Tick(now))
    decreases |run|
  {
    if run != [] {
      TickBurns(s, run[0].now);
      SoundInductive(s, run[0]);
      EveryWaitEnds(Apply(s, run[0]), run[1..], now);
    }
  }
}
