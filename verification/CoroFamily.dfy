/** Every coroutine that is ever created, also by another coroutine, is handed out exactly once. */
module CoroFamily {
  import opened CoroModel
  import opened CoroTheorems
  import opened CoroCode

  /** What is reported of a finished coroutine (line 275): its result and its switch count. */
  type Report = (int, nat)

  function ReportOf(p: Prog): Report {
    (Result(p), Yields(p))
  }

  /** The reports of all coroutines a program will still create, directly or further down. */
  function Spawned(p: Prog): multiset<Report> {
    match p
    case Return(_) => multiset{}
    case Yield(rest) => Spawned(rest)
    case Tally(rest) => Spawned(rest)
    case Stamp(rest) => Spawned(rest)
    case Spawn(child, rest) => multiset{ReportOf(child)} + Spawned(child) + Spawned(rest)
  }

  /** The reports of a program's coroutine and of everything it creates. */
  function Descent(p: Prog): multiset<Report> {
    multiset{ReportOf(p)} + Spawned(p)
  }

  function Descents(progs: seq<Prog>): multiset<Report> {
    if progs == [] then multiset{} else Descents(progs[..|progs| - 1]) + Descent(progs[|progs| - 1])
  }

  /** What the coroutines' own programs will have reported of them. */
  function Starts(cs: seq<Coro>): multiset<Report> {
    if cs == [] then multiset{} else multiset{ReportOf(cs[0].start)} + Starts(cs[1..])
  }

  /** The reports of what the coroutines will still create. */
  function Pending(cs: seq<Coro>): multiset<Report> {
    if cs == [] then multiset{} else ToCome(cs[0]) + Pending(cs[1..])
  }

  function ToCome(c: Coro): multiset<Report> {
    if c.finished then multiset{} else Spawned(c.prog)
  }

  /** All reports the state accounts for: of running coroutines, given, and to come. */
  function Family(s: State): multiset<Report> {
    Starts(s.list) + Starts(s.returned) + Pending(s.list)
  }

  lemma {:induction false} StartsUpdate(cs: seq<Coro>, k: nat, c: Coro)
    requires k < |cs| && c.start == cs[k].start
    ensures Starts(cs[k := c]) == Starts(cs)
    ensures Pending(cs[k := c]) + ToCome(cs[k]) == Pending(cs) + ToCome(c)
  {
    hide ToCome;
    if k == 0 {
      assert cs[0 := c][1..] == cs[1..];
    } else {
      assert cs[k := c][1..] == cs[1..][k - 1 := c];
      StartsUpdate(cs[1..], k - 1, c);
      Regroup(ToCome(cs[0]), Pending(cs[1..][k - 1 := c]), ToCome(cs[k]), Pending(cs[1..]), ToCome(c));
    }
  }

  lemma StartsKeep(cs: seq<Coro>, k: nat, c: Coro)
    requires k < |cs| && c.start == cs[k].start && ToCome(c) == ToCome(cs[k])
    ensures Starts(cs[k := c]) == Starts(cs) && Pending(cs[k := c]) == Pending(cs)
  {
    hide ToCome, Starts, Pending;
    StartsUpdate(cs, k, c);
    Cancel(Pending(cs[k := c]), Pending(cs), ToCome(c));
  }

  lemma Regroup(a: multiset<Report>, b: multiset<Report>, x: multiset<Report>, c: multiset<Report>, y: multiset<Report>)
    requires b + x == c + y
    ensures (a + b) + x == (a + c) + y
  {
    assert (a + b) + x == a + (b + x);
    assert (a + c) + y == a + (c + y);
  }

  lemma {:induction false} StartsRemove(cs: seq<Coro>, f: nat)
    requires f < |cs|
    ensures Starts(cs[..f] + cs[f + 1..]) + multiset{ReportOf(cs[f].start)} == Starts(cs)
    ensures Pending(cs[..f] + cs[f + 1..]) + ToCome(cs[f]) == Pending(cs)
  {
    hide ToCome;
    if f == 0 {
      assert cs[..0] + cs[1..] == cs[1..];
    } else {
      var less := cs[1..][..f - 1] + cs[1..][f..];
      assert (cs[..f] + cs[f + 1..])[1..] == less;
      StartsRemove(cs[1..], f - 1);
      Regroup(multiset{ReportOf(cs[0].start)}, Starts(less), multiset{ReportOf(cs[f].start)}, Starts(cs[1..]),
        multiset{});
      Regroup(ToCome(cs[0]), Pending(less), ToCome(cs[f]), Pending(cs[1..]), multiset{});
    }
  }

  lemma {:induction false} StartsAppend(cs: seq<Coro>, c: Coro)
    ensures Starts(cs + [c]) == Starts(cs) + multiset{ReportOf(c.start)}
  {
    if cs == [] {
      assert [] + [c] == [c];
    } else {
      assert (cs + [c])[1..] == cs[1..] + [c];
      StartsAppend(cs[1..], c);
    }
  }

  lemma {:induction false} StartsSize(cs: seq<Coro>)
    ensures |Starts(cs)| == |cs|
  {
    if cs != [] { StartsSize(cs[1..]); }
  }

  lemma ResumeFamily(s: State, k: nat, now: int)
    requires k < |s.list|
    ensures Family(Resume(s, k, now)) == Family(s)
  {
    hide Starts, Pending;
    StartsKeep(s.list, k, s.list[k].(lastChecked := now, resumed := s.list[k].resumed + 1));
  }

  lemma YieldFamily(s: State, now: int)
    ensures Family(YieldNow(s, now)) == Family(s)
  {
    hide Starts, Pending, Resume;
    if s.current.Some? && IndexOf(s.list, s.current.value) < |s.list| {
      var i := IndexOf(s.list, s.current.value);
      var c := s.list[i].(switches := s.list[i].switches + 1);
      StartsKeep(s.list, i, c);
      var t := s.(list := s.list[i := c]);
      if i + 1 < |s.list| { ResumeFamily(t, i + 1, now); }
    }
  }

  /** One thing done: the family of the state does not change. */
  lemma RunFamily(s: State, k: nat, now: int)
    requires k < |s.list| && !s.list[k].finished
    ensures Family(RunStep(s, k, now)) == Family(s)
  {
    hide Starts, Pending, YieldNow;
    var c := s.list[k];
    match c.prog
    case Return(r) => StartsKeep(s.list, k, Checked(c.(finished := true, ret := r), now));
    case Yield(rest) =>
      StartsKeep(s.list, k, c.(prog := rest));
      YieldFamily(s.(list := s.list[k := c.(prog := rest)]), now);
    case Tally(rest) => StartsKeep(s.list, k, Checked(c.(prog := rest), now));
    case Stamp(rest) => StartsKeep(s.list, k, c.(prog := rest, lastChecked := now));
    case Spawn(child, rest) =>
      StartsUpdate(s.list, k, c.(prog := rest));
      NewFamily(s.list[k := c.(prog := rest)], NewCoro(s.nextId, child));
      assert Pending(s.list[k := c.(prog := rest)]) + Descent(child) == Pending(s.list) by {
        SpawnMoves(Pending(s.list[k := c.(prog := rest)]), Pending(s.list), child, rest);
      }
      assert Family(RunStep(s, k, now)) ==
        (multiset{ReportOf(child)} + Starts(s.list)) + Starts(s.returned)
        + (Spawned(child) + Pending(s.list[k := c.(prog := rest)]));
  }

  lemma SpawnMoves(after: multiset<Report>, before: multiset<Report>, child: Prog, rest: Prog)
    requires after + Spawned(Spawn(child, rest)) == before + Spawned(rest)
    ensures after + Descent(child) == before
  {
    hide Spawned;
    SpawnedSpawn(child, rest);
    assert (after + Descent(child)) + Spawned(rest) == before + Spawned(rest);
    Cancel(after + Descent(child), before, Spawned(rest));
  }

  lemma SpawnedSpawn(child: Prog, rest: Prog)
    ensures Spawned(Spawn(child, rest)) == Descent(child) + Spawned(rest)
  {
  }

  lemma Cancel(a: multiset<Report>, b: multiset<Report>, c: multiset<Report>)
    requires a + c == b + c
    ensures a == b
  {
    forall p ensures a[p] == b[p] {
      assert (a + c)[p] == (b + c)[p];
    }
  }

  lemma NewFamily(list: seq<Coro>, c: Coro)
    ensures Starts([c] + list) == multiset{ReportOf(c.start)} + Starts(list)
    ensures Pending([c] + list) == ToCome(c) + Pending(list)
  {
    assert ([c] + list)[1..] == list;
  }

  lemma LoopFamily(s: State, now: int)
    requires s.at == Loop
    ensures Family(LoopStep(s, now)) == Family(s)
  {
    hide Starts, Pending, Resume;
    if s.list != [] {
      FirstFinishedIs(s.list);
      var f := FirstFinished(s.list);
      if f < |s.list| {
        StartsRemove(s.list, f);
        StartsAppend(s.returned, s.list[f]);
      } else {
        ResumeFamily(s.(waiting := true, schedSwitches := s.schedSwitches + 1), 0, now);
      }
    }
  }

  /** Conservation: without new creations by the main program, a run keeps the family. */
  lemma {:induction false} FamilyKept(s: State, run: seq<Action>)
    requires Sound(s) && LegalRun(s, run) && NoCreate(run)
    ensures Family(After(s, run)) == Family(s)
    decreases |run|
  {
    if run != [] {
      var a := run[0];
      SoundInductive(s, a);
      if a.Tick? {
        var t := s.(clock := a.now);
        if s.at.Run? { RunFamily(t, s.at.k, a.now); } else { LoopFamily(t, a.now); }
      }
      FamilyKept(Apply(s, a), run[1..]);
    }
  }

  lemma CreateFamily(s: State, p: Prog)
    requires s.at == Main
    ensures Family(Apply(s, Create(p))) == Family(s) + Descent(p)
  {
    NewFamily(s.list, NewCoro(s.nextId, p));
  }

  /** Objects that did not exist when the method began. */
  twostate predicate AllNew(new s: Scheduler)
    reads s
  {
    fresh(s) && forall k :: 0 <= k < |s.order| ==> fresh(s.order[k])
  }

  /** Lines 247 and 259-264. */
  method CreateAll(progs: seq<Prog>) returns (scheduler: Scheduler)
    ensures scheduler.Valid() && scheduler.model.at == Main && AllNew(scheduler)
    ensures scheduler.model.returned == [] && Family(scheduler.model) == Descents(progs)
  {
    hide Accounted, Control, Linked, ListStands, Family, Descents, Descent;
    scheduler := new Scheduler(0);
    EmptyFamily(0, progs);
    for i := 0 to |progs|
      invariant scheduler.Valid() && scheduler.model.at == Main && AllNew(scheduler)
      invariant scheduler.model.returned == [] && Family(scheduler.model) == Descents(progs[..i])
    {
      SoundIds(scheduler.model);
      SoundInductive(scheduler.model, Create(progs[i]));
      CreateFamily(scheduler.model, progs[i]);
      DescentsGrow(progs, i);
      var _ := scheduler.New(progs[i]);
    }
    assert progs[..|progs|] == progs;
  }

  lemma EmptyFamily(now: int, progs: seq<Prog>)
    ensures Family(Initial(now)) == Descents(progs[..0])
  {
  }

  lemma DescentsGrow(progs: seq<Prog>, i: nat)
    requires i < |progs|
    ensures Descents(progs[..i + 1]) == Descents(progs[..i]) + Descent(progs[i])
  {
    assert progs[..i + 1][..i] == progs[..i];
  }

  lemma FamilySize(s: State)
    ensures |s.list| + |s.returned| <= |Family(s)|
    ensures s.list == [] ==> Family(s) == Starts(s.returned)
  {
    StartsSize(s.list);
    StartsSize(s.returned);
  }

  /** What one wait adds to the reports. */
  lemma WaitAdds(s: State, t: State, run: seq<Action>)
    requires Sound(s) && s.at == Main && LegalRun(s, run) && NoCreate(run) && t == After(s, run)
    requires |t.returned| == |s.returned| + 1 && s.returned == t.returned[..|s.returned|]
    ensures var c := t.returned[|s.returned|];
      && c.ret == Result(c.start) && c.switches == Yields(c.start)
      && Starts(t.returned) == Starts(s.returned) + multiset{(c.ret, c.switches)}
  {
    SoundAlways(s, run);
    SoundReturns(t);
    assert t.returned == s.returned + [t.returned[|s.returned|]];
    StartsAppend(s.returned, t.returned[|s.returned|]);
    assert t.returned[|s.returned|] in t.returned;
  }

  /** main, lines 259-278: create the coroutines, then wait until nothing is left. Every
      coroutine created on the way is reported exactly once, with its program's result and with
      as many switches as its program yields. */
  method CreateAndWait(progs: seq<Prog>) returns (reports: seq<Report>)
    ensures multiset(reports) == Descents(progs)
  {
    hide Accounted, Control, Linked, ListStands, Family, After, LegalRun, Starts, Descents;
    var scheduler := CreateAll(progs);
    reports := [];
    StartsNone();
    while true
      invariant scheduler.Valid() && scheduler.model.at == Main && AllNew(scheduler)
      invariant Family(scheduler.model) == Descents(progs)
      invariant |reports| == |scheduler.model.returned|
      invariant multiset(reports) == Starts(scheduler.model.returned)
      decreases |Descents(progs)| - |scheduler.model.returned|
    {
      ghost var s := scheduler.model;
      var c, run := scheduler.SchedWait();
      FamilyKept(s, run);
      FamilySize(scheduler.model);
      if c == null {
        break;
      }
      WaitAdds(s, scheduler.model, run);
      reports := reports + [(c.ret, c.switchCount)];
    }
  }

  lemma StartsNone()
    ensures Starts([]) == multiset{}
  {
  }
}
