/** How evenly the scheduler shares control, and what the run times add up to. */
module CoroFairness {
  import opened Common
  import opened CoroModel
  import opened CoroTheorems

  // ---- fairness ----

  /** How many coroutines have finished so far. */
  function Done(s: State): nat {
    |s.returned| + if FirstFinished(s.list) < |s.list| then 1 else 0
  }

  /** 1 if the round now running has resumed i but not yet j. */
  function Ahead(s: State, i: nat, j: nat): nat {
    if s.at.Run? && i <= s.at.k < j then 1 else 0
  }

  ghost predicate PairFair(s: State, i: nat, j: nat)
    requires i < j < |s.list|
  {
    var a, b := s.list[i], s.list[j];
    !a.finished && !b.finished ==> Ahead(s, i, j) <= a.resumed - b.resumed <= Done(s) + Ahead(s, i, j)
  }

  /** Rounds start at the head and go down the list, so earlier coroutines are ahead; each
      finish cut one round short. */
  ghost predicate Fair(s: State) {
    && (forall i, j {:trigger PairFair(s, i, j)} :: 0 <= i < j < |s.list| ==> PairFair(s, i, j))
    && forall i :: 0 <= i < |s.list| ==> SpawnFree(s.list[i].prog)
  }

  lemma NoneFinished(list: seq<Coro>)
    ensures AllUnfinished(list) <==> FirstFinished(list) == |list|
  {
    FirstFinishedIs(list);
  }

  /** What a yield from position k does to list and counts. */
  lemma YieldShape(s: State, k: nat, now: int)
    requires s.at == Run(k) && k < |s.list| && s.current == Some(s.list[k].id)
    requires forall i :: 0 <= i < k ==> s.list[i].id != s.list[k].id
    ensures var t := YieldNow(s, now);
      && |t.list| == |s.list| && t.returned == s.returned
      && t.at == (if k + 1 < |s.list| then Run(k + 1) else Loop)
      && forall i :: 0 <= i < |s.list| ==>
        && t.list[i].finished == s.list[i].finished && t.list[i].prog == s.list[i].prog
        && t.list[i].resumed == s.list[i].resumed + if i == k + 1 then 1 else 0
  {
    IndexOfIs(s.list, k);
  }

  /** Passing control on inside a round. */
  lemma YieldFair(s: State, k: nat, now: int)
    requires s.at == Run(k) && k < |s.list| && s.current == Some(s.list[k].id)
    requires forall i :: 0 <= i < k ==> s.list[i].id != s.list[k].id
    requires Fair(s) && AllUnfinished(s.list)
    ensures Fair(YieldNow(s, now))
  {
    hide YieldNow, FirstFinished;
    YieldShape(s, k, now);
    var t := YieldNow(s, now);
    NoneFinished(s.list);
    NoneFinished(t.list);
    forall i, j | 0 <= i < j < |t.list| ensures PairFair(t, i, j) {
      assert PairFair(s, i, j);
    }
  }

  /** The program counter moves; counts and positions stay. */
  lemma KeepsFair(s: State, t: State)
    requires Fair(s) && t.at == s.at && t.returned == s.returned && |t.list| == |s.list|
    requires AllUnfinished(s.list) && AllUnfinished(t.list)
    requires forall i :: 0 <= i < |s.list| ==> t.list[i].resumed == s.list[i].resumed && SpawnFree(t.list[i].prog)
    ensures Fair(t)
  {
    NoneFinished(s.list);
    NoneFinished(t.list);
    forall i, j | 0 <= i < j < |t.list| ensures PairFair(t, i, j) {
      assert PairFair(s, i, j);
    }
  }

  lemma FinishFair(s: State, k: nat, r: int, now: int)
    requires Fair(s) && AllUnfinished(s.list) && s.at == Run(k) && k < |s.list|
    ensures Fair(ToScheduler(s.(list := s.list[k := Checked(s.list[k].(finished := true, ret := r), now)])))
  {
    var t := ToScheduler(s.(list := s.list[k := Checked(s.list[k].(finished := true, ret := r), now)]));
    NoneFinished(s.list);
    NoneFinished(t.list);
    assert t.list[k].finished;
    FirstFinishedIs(t.list);
    forall i, j | 0 <= i < j < |t.list| ensures PairFair(t, i, j) {
      assert PairFair(s, i, j);
    }
  }

  lemma RunStepFair(s: State, k: nat, now: int)
    requires Sound(s) && Fair(s) && s.at == Run(k)
    ensures k < |s.list| && Fair(RunStep(s, k, now))
  {
    hide Fair, PairFair, Checked;
    var c, all := s.list[k], s.list + s.returned;
    assert forall i :: 0 <= i <= k ==> all[i] == s.list[i];
    SpawnFreeAt(s, k);
    match c.prog
    case Return(r) => FinishFair(s, k, r, now);
    case Yield(rest) =>
      var t := s.(list := s.list[k := c.(prog := rest)]);
      KeepsFair(s, t);
      YieldFair(t, k, now);
    case Tally(rest) =>
      CheckedKeeps(c.(prog := rest), now);
      KeepsFair(s, s.(list := s.list[k := Checked(c.(prog := rest), now)]));
    case Stamp(rest) => KeepsFair(s, s.(list := s.list[k := c.(prog := rest, lastChecked := now)]));
    case Spawn(_, _) => assert false;
  }

  lemma SpawnFreeAt(s: State, k: nat)
    requires Fair(s) && k < |s.list|
    ensures SpawnFree(s.list[k].prog)
    ensures forall i :: 0 <= i < |s.list| ==> SpawnFree(s.list[i].prog)
  {
  }

  lemma CheckedKeeps(c: Coro, now: int)
    ensures var d := Checked(c, now);
      d.id == c.id && d.resumed == c.resumed && d.finished == c.finished && d.prog == c.prog
  {
  }

  /** Handing out the finished coroutine. */
  lemma ReturnFair(s: State, f: nat, now: int)
    requires Fair(s) && s.at == Loop && f == FirstFinished(s.list) < |s.list|
    requires forall i :: 0 <= i < |s.list| && i != f ==> !s.list[i].finished
    ensures Fair(LoopStep(s, now))
  {
    var t := LoopStep(s, now);
    assert t.list == s.list[..f] + s.list[f + 1..] && t.at == Main;
    assert forall i :: 0 <= i < |t.list| ==> t.list[i] == s.list[if i < f then i else i + 1];
    NoneFinished(t.list);
    assert Done(t) == Done(s);
    forall i, j | 0 <= i < j < |t.list| ensures PairFair(t, i, j) {
      assert PairFair(s, if i < f then i else i + 1, if j < f then j else j + 1);
    }
  }

  lemma LoopStepFair(s: State, now: int)
    requires Sound(s) && Fair(s) && s.at == Loop
    ensures Fair(LoopStep(s, now))
  {
    hide Accounted;
    FirstFinishedIs(s.list);
    var f := FirstFinished(s.list);
    var t := LoopStep(s, now);
    if s.list != [] && f < |s.list| {
      assert forall i :: 0 <= i < |s.list| && i != f ==> !s.list[i].finished;
      ReturnFair(s, f, now);
    } else if s.list != [] {
      NoneFinished(s.list);
      NoneFinished(t.list);
      forall i, j | 0 <= i < j < |t.list| ensures PairFair(t, i, j) {
        assert PairFair(s, i, j);
      }
    }
  }

  lemma {:induction false} FairAlways(s: State, run: seq<Action>)
    requires Sound(s) && Fair(s) && LegalRun(s, run) && NoCreate(run)
    ensures Sound(After(s, run)) && Fair(After(s, run))
    decreases |run|
  {
    if run != [] {
      var a := run[0];
      SoundInductive(s, a);
      var t := Apply(s, a);
      match a {
        case CallWait =>
          NoneFinished(s.list);
          forall i, j | 0 <= i < j < |t.list| ensures PairFair(t, i, j) { assert PairFair(s, i, j); }
        case Tick(now) =>
          var u := s.(clock := now);
          forall i, j | 0 <= i < j < |u.list| ensures PairFair(u, i, j) { assert PairFair(s, i, j); }
          if s.at.Run? { RunStepFair(u, s.at.k, now); } else { LoopStepFair(u, now); }
      }
      FairAlways(t, run[1..]);
    }
  }

  /** All coroutines created before the first wait: whenever the scheduler or the main program
      has control, two unfinished coroutines have been resumed equally often, up to the number
      of coroutines that have finished. */
  lemma ResumesDifferByFinishes(s: State, run: seq<Action>)
    requires Sound(s) && s.at.Main? && s.returned == [] && LegalRun(s, run) && NoCreate(run)
    requires forall i :: 0 <= i < |s.list| ==> s.list[i].resumed == 0 && SpawnFree(s.list[i].prog)
    ensures var t := After(s, run);
      !t.at.Run? ==> forall i, j :: 0 <= i < |t.list| && 0 <= j < |t.list| ==>
        !t.list[i].finished && !t.list[j].finished ==> t.list[i].resumed - t.list[j].resumed <= Done(t)
  {
    forall i, j | 0 <= i < j < |s.list| ensures PairFair(s, i, j) {
    }
    FairAlways(s, run);
    var t := After(s, run);
    if !t.at.Run? {
      forall i, j | 0 <= i < |t.list| && 0 <= j < |t.list| && !t.list[i].finished && !t.list[j].finished
        ensures t.list[i].resumed - t.list[j].resumed <= Done(t)
      {
        assert i < j ==> PairFair(t, i, j);
        assert j < i ==> PairFair(t, Min(i, j), Max(i, j));
      }
    }
  }

  // ---- time ----

  function TotalTime(cs: seq<Coro>): int {
    if cs == [] then 0 else TotalTime(cs[1..]) + cs[0].timeTotal
  }

  lemma {:induction false} TotalUpdate(cs: seq<Coro>, k: nat, c: Coro)
    requires k < |cs|
    ensures TotalTime(cs[k := c]) == TotalTime(cs) - cs[k].timeTotal + c.timeTotal
  {
    if k == 0 {
      assert cs[0 := c][1..] == cs[1..];
    } else {
      assert cs[k := c][1..] == cs[1..][k - 1 := c];
      TotalUpdate(cs[1..], k - 1, c);
    }
  }

  lemma {:induction false} TotalRemove(cs: seq<Coro>, f: nat)
    requires f < |cs|
    ensures TotalTime(cs[..f] + cs[f + 1..]) == TotalTime(cs) - cs[f].timeTotal
  {
    if f == 0 {
      assert cs[..0] + cs[1..] == cs[1..];
    } else {
      assert (cs[..f] + cs[f + 1..])[1..] == cs[1..][..f - 1] + cs[1..][f..];
      TotalRemove(cs[1..], f - 1);
    }
  }

  lemma {:induction false} TotalAppend(cs: seq<Coro>, c: Coro)
    ensures TotalTime(cs + [c]) == TotalTime(cs) + c.timeTotal
  {
    if cs == [] {
      assert [] + [c] == [c];
    } else {
      assert (cs + [c])[1..] == cs[1..] + [c];
      TotalAppend(cs[1..], c);
    }
  }

  /** All counted time lies before the running coroutine's last check. */
  ghost predicate TimeOk(s: State, t0: int) {
    && TotalTime(s.list) + TotalTime(s.returned) <= s.clock - t0
    && (s.at.Run? && s.at.k < |s.list| ==>
          && s.list[s.at.k].lastChecked <= s.clock
          && TotalTime(s.list) + TotalTime(s.returned) <= s.list[s.at.k].lastChecked - t0)
  }

  lemma ResumeTime(s: State, k: nat, now: int)
    requires k < |s.list|
    ensures TotalTime(Resume(s, k, now).list) == TotalTime(s.list)
  {
    TotalUpdate(s.list, k, s.list[k].(lastChecked := now, resumed := s.list[k].resumed + 1));
  }

  lemma YieldTime(s: State, now: int)
    ensures TotalTime(YieldNow(s, now).list) == TotalTime(s.list)
  {
    if s.current.Some? && IndexOf(s.list, s.current.value) < |s.list| {
      var i := IndexOf(s.list, s.current.value);
      var t := s.(list := s.list[i := s.list[i].(switches := s.list[i].switches + 1)]);
      TotalUpdate(s.list, i, t.list[i]);
      if i + 1 < |s.list| { ResumeTime(t, i + 1, now); }
    }
  }

  lemma TickTime(s: State, now: int, t0: int)
    requires Sound(s) && Legal(s, Tick(now)) && TimeOk(s, t0)
    ensures TimeOk(Apply(s, Tick(now)), t0)
  {
    var u := s.(clock := now);
    if s.at.Run? {
      RunTime(u, s.at.k, now, t0, s.clock);
    } else {
      FirstFinishedIs(s.list);
      if s.list != [] {
        var f := FirstFinished(s.list);
        if f < |s.list| {
          TotalRemove(s.list, f);
          TotalAppend(s.returned, s.list[f]);
        } else {
          ResumeTime(u.(waiting := true, schedSwitches := s.schedSwitches + 1), 0, now);
        }
      }
    }
  }

  /** A yield counts nothing: what was counted lies before now. */
  lemma YieldTimeOk(s: State, now: int, t0: int)
    requires s.current.Some? && IndexOf(s.list, s.current.value) < |s.list| && s.clock == now
    requires TotalTime(s.list) + TotalTime(s.returned) <= now - t0
    ensures TimeOk(YieldNow(s, now), t0)
  {
    YieldTime(s, now);
  }

  lemma RunTime(s: State, k: nat, now: int, t0: int, was: int)
    requires Sound(s) && s.at == Run(k) && s.clock == now && was <= now
    requires k < |s.list| && s.list[k].lastChecked <= was
    requires TotalTime(s.list) + TotalTime(s.returned) <= s.list[k].lastChecked - t0
    ensures TimeOk(RunStep(s, k, now), t0)
  {
    hide YieldNow, IndexOf;
    var c, all := s.list[k], s.list + s.returned;
    assert forall i :: 0 <= i <= k ==> all[i] == s.list[i];
    match c.prog
    case Return(r) => TotalUpdate(s.list, k, Checked(c.(finished := true, ret := r), now));
    case Yield(rest) =>
      TotalUpdate(s.list, k, c.(prog := rest));
      IndexOfIs(s.list[k := c.(prog := rest)], k);
      YieldTimeOk(s.(list := s.list[k := c.(prog := rest)]), now, t0);
    case Tally(rest) => TotalUpdate(s.list, k, Checked(c.(prog := rest), now));
    case Stamp(rest) => TotalUpdate(s.list, k, c.(prog := rest, lastChecked := now));
    case Spawn(child, rest) =>
      var list := s.list[k := c.(prog := rest)];
      TotalUpdate(s.list, k, c.(prog := rest));
      assert ([NewCoro(s.nextId, child)] + list)[1..] == list;
  }

  lemma {:induction false} TimeAlways(s: State, run: seq<Action>, t0: int)
    requires Sound(s) && LegalRun(s, run) && TimeOk(s, t0)
    ensures TimeOk(After(s, run), t0)
    decreases |run|
  {
    if run != [] {
      var a := run[0];
      SoundInductive(s, a);
      if a.Tick? { TickTime(s, a.now, t0); }
      if a.Create? { assert ([NewCoro(s.nextId, a.prog)] + s.list)[1..] == s.list; }
      TimeAlways(Apply(s, a), run[1..], t0);
    }
  }

  /** With a monotone clock, the times of all coroutines together never exceed what has passed. */
  lemma TimesFitTheClock(t0: int, run: seq<Action>)
    requires LegalRun(Initial(t0), run)
    ensures var s := After(Initial(t0), run);
      TotalTime(s.list) + TotalTime(s.returned) <= s.clock - t0
  {
    TimeAlways(Initial(t0), run, t0);
  }
}
