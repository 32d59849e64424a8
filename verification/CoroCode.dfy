/** The globals and routines of 1/libcoro.c on the heap: the doubly linked coroutine list,
    coro_this_ptr and the waiting flag, updated in place step by step. Every step is a step of
    the machine in CoroModel. */
module CoroCode {
  import opened Common
  import opened CoroModel
  import opened CoroTheorems

  /** struct coro; `prog` stands for its saved context: what it will still do. */
  class Proc {
    var prog: Prog
    var ret: int
    var isFinished: bool
    var switchCount: nat
    var next: Proc?
    var prev: Proc?
    var lastChecked: int
    var timeTotal: int
    ghost const id: nat
    ghost const start: Prog
    ghost var resumed: nat

    constructor (p: Prog, ghost identity: nat)
      ensures Stands(this, NewCoro(identity, p)) && next == null && prev == null
    {
      prog, ret, isFinished, switchCount, next, prev := p, 0, false, 0, null, null;
      lastChecked, timeTotal := 0, 0;
      id, start, resumed := identity, p, 0;
    }

    /** Lines 45-47 and 221-224. */
    method Check(now: int)
      modifies this`timeTotal, this`lastChecked
      ensures timeTotal == old(timeTotal) + (now - old(lastChecked)) && lastChecked == now
    {
      timeTotal := timeTotal + (now - lastChecked);
      lastChecked := now;
    }
  }

  ghost predicate Stands(p: Proc, c: Coro)
    reads p`prog, p`isFinished, p`ret, p`switchCount, p`lastChecked, p`timeTotal, p`resumed
  {
    c == Coro(p.id, p.prog, p.isFinished, p.ret, p.switchCount, p.lastChecked, p.timeTotal, p.start, p.resumed)
  }

  ghost function ProcAt(order: seq<Proc>, i: nat): Proc? {
    if i < |order| then order[i] else null
  }

  ghost predicate Linked(order: seq<Proc>)
    reads order`next, order`prev
  {
    forall i {:trigger order[i].next} {:trigger order[i].prev} :: 0 <= i < |order| ==>
      && order[i].next == ProcAt(order, i + 1)
      && order[i].prev == if i == 0 then null else order[i - 1]
  }

  /** The list's objects stand for the machine's coroutines, in order. */
  ghost predicate ListStands(order: seq<Proc>, list: seq<Coro>)
    reads order`prog, order`isFinished, order`ret, order`switchCount, order`lastChecked, order`timeTotal, order`resumed
  {
    && |order| == |list|
    && (forall i :: 0 <= i < |order| ==> Stands(order[i], list[i]))
    && forall i, j :: 0 <= i < j < |list| ==> list[i].id != list[j].id
  }

  /** coro_this_ptr is the running coroutine's object, and null while the scheduler runs. */
  ghost predicate ThisNamesRunner(p: Proc?, order: seq<Proc>, s: State) {
    match s.at
    case Run(k) => k < |order| && p == order[k] && s.current == Some(p.id)
    case _ => p == null && s.current == None
  }

  /** One object changes, and so does its coroutine. */
  lemma ListUpdate(order: seq<Proc>, list: seq<Coro>, k: nat, c: Coro)
    requires |order| == |list| && k < |order| && Stands(order[k], c) && c.id == list[k].id
    requires forall i :: 0 <= i < |order| && i != k ==> Stands(order[i], list[i])
    requires forall i, j :: 0 <= i < j < |list| ==> list[i].id != list[j].id
    ensures ListStands(order, list[k := c])
  {
    var list' := list[k := c];
    forall i, j | 0 <= i < j < |list'| ensures list'[i].id != list'[j].id {
      assert list[i].id != list[j].id;
    }
  }

  lemma ListNew(order: seq<Proc>, list: seq<Coro>, p: Proc, c: Coro)
    requires ListStands(order, list) && Stands(p, c)
    requires forall i :: 0 <= i < |list| ==> list[i].id != c.id
    ensures ListStands([p] + order, [c] + list)
  {
    hide Stands;
    var order', list' := [p] + order, [c] + list;
    assert forall i :: 0 < i < |list'| ==> list'[i] == list[i - 1] && order'[i] == order[i - 1];
  }

  lemma Distinct(order: seq<Proc>, list: seq<Coro>)
    requires ListStands(order, list)
    ensures forall i, j :: 0 <= i < j < |order| ==> order[i] != order[j]
  {
    forall i, j | 0 <= i < j < |order| ensures order[i] != order[j] {
      assert list[i].id != list[j].id;
    }
  }

  /** Where a yield from position k goes. */
  lemma YieldSplits(p: Proc, order: seq<Proc>, s: State, k: nat, now: int)
    requires Linked(order) && ListStands(order, s.list) && ThisNamesRunner(p, order, s) && s.at == Run(k)
    requires AllUnfinished(s.list)
    ensures |order| == |s.list|
    ensures p.next == ProcAt(order, k + 1) && (p.next != null ==> !p.next.isFinished)
    ensures var t := s.(list := s.list[k := s.list[k].(switches := s.list[k].switches + 1)]);
      YieldNow(s, now) == if k + 1 < |s.list| then Resume(t, k + 1, now) else ToScheduler(t)
  {
    assert Stands(order[k], s.list[k]);
    IndexOfIs(s.list, k);
    if k + 1 < |order| { assert Stands(order[k + 1], s.list[k + 1]); }
  }

  /** Reading the monotone clock. */
  method ReadClock(last: int) returns (now: int)
    ensures now >= last
  {
    now :| now >= last;
  }

  class Scheduler {
    var coroList: Proc?
    var thisPtr: Proc?          // null for coro_sched
    var isSchedWaiting: bool
    var schedSwitches: nat      // coro_sched.switch_count
    var clock: int              // the last reading

    ghost var order: seq<Proc>
    ghost var model: State

    /** Everything but the waiting flag. */
    ghost predicate Standing()
      reads this, order
    {
      && coroList == ProcAt(order, 0)
      && Linked(order)
      && ListStands(order, model.list)
      && ThisNamesRunner(thisPtr, order, model)
      && schedSwitches == model.schedSwitches && clock == model.clock
    }

    /** The heap stands for a sound machine state; control is where the caller says. */
    ghost predicate Valid()
      reads this, order
    {
      Standing() && isSchedWaiting == model.waiting && Sound(model)
    }

    /** coro_sched_init, lines 162-167. */
    constructor (now: int)
      ensures Valid() && model == Initial(now) && order == []
    {
      coroList, thisPtr, isSchedWaiting, schedSwitches, clock := null, null, false, 0, now;
      order, model := [], Initial(now);
    }

    /** coro_list_add, lines 80-89. */
    method ListAdd(c: Proc)
      requires Linked(order) && coroList == ProcAt(order, 0) && c !in order
      modifies this`coroList, this`order, c`next, c`prev, order`prev
      ensures Linked(order) && coroList == ProcAt(order, 0) && order == [c] + old(order)
    {
      c.next := coroList;
      c.prev := null;
      if coroList != null {
        coroList.prev := c;
      }
      coroList := c;
      order := [c] + order;
    }

    /** coro_list_delete, lines 91-102. */
    method ListDelete(c: Proc, ghost i: nat)
      requires Linked(order) && coroList == ProcAt(order, 0) && i < |order| && order[i] == c
      requires forall i, j :: 0 <= i < j < |order| ==> order[i] != order[j]
      modifies this`coroList, this`order, order`next, order`prev
      ensures Linked(order) && coroList == ProcAt(order, 0) && order == old(order)[..i] + old(order)[i + 1..]
    {
      var prev, next := c.prev, c.next;
      if prev != null {
        prev.next := next;
      }
      if next != null {
        next.prev := prev;
      }
      if prev == null {
        coroList := next;
      }
      order := order[..i] + order[i + 1..];
    }

    /** coro_new, lines 234-309: a fresh coroutine at the head; coro_this_ptr is restored. */
    method New(p: Prog) returns (c: Proc)
      requires Standing()
      requires forall i :: 0 <= i < |model.list| ==> model.list[i].id < model.nextId
      modifies this`coroList, this`order, this`model, order`prev
      ensures Standing() && fresh(c) && order == [c] + old(order)
      ensures model == old(model).(
        list := [NewCoro(old(model).nextId, p)] + old(model).list, nextId := old(model).nextId + 1,
        at := if old(model).at.Run? then Run(old(model).at.k + 1) else old(model).at)
    {
      hide Linked, ListStands, Stands;
      c := new Proc(p, model.nextId);
      ghost var was := order;
      ListAdd(c);
      ListNew(was, model.list, c, NewCoro(model.nextId, p));
      model := model.(list := [NewCoro(model.nextId, p)] + model.list, nextId := model.nextId + 1,
                      at := if model.at.Run? then Run(model.at.k + 1) else model.at);
    }

    /** The jump of coro_yield_to (142-148) to a coroutine that has not finished. */
    method SwitchTo(to: Proc, now: int, ghost i: nat)
      requires Standing() && i < |order| && order[i] == to
      requires !to.isFinished
      modifies this`thisPtr, this`model, to`lastChecked, to`resumed
      ensures Standing() && model == Resume(old(model), i, now) && model.at == Run(i) && thisPtr == to
    {
      hide Linked;
      assert Stands(order[i], model.list[i]);
      ghost var from := model;
      to.lastChecked := now;
      to.resumed := to.resumed + 1;
      thisPtr := to;
      model := Resume(model, i, now);
      ListUpdate(order, from.list, i, model.list[i]);
    }

    /** Line 140. */
    method CountSwitch(from: Proc, ghost k: nat)
      requires Standing() && k < |order| && order[k] == from
      modifies this`model, from`switchCount
      ensures Standing()
      ensures var c := old(model).list[k];
        model == old(model).(list := old(model).list[k := c.(switches := c.switches + 1)])
    {
      hide Linked;
      Distinct(order, model.list);
      ghost var list := model.list;
      assert Stands(order[k], model.list[k]);
      from.switchCount := from.switchCount + 1;
      model := model.(list := model.list[k := model.list[k].(switches := model.list[k].switches + 1)]);
      ListUpdate(order, list, k, model.list[k]);
    }

    /** coro_yield, lines 151-160. */
    method Yield(now: int, ghost k: nat)
      requires Standing() && model.at == Run(k) && AllUnfinished(model.list)
      modifies this`thisPtr, this`model, order
      ensures Standing() && model == YieldNow(old(model), now)
      ensures thisPtr == null <==> model.at == Loop
      ensures model.at == Loop || model.at == Run(k + 1)
    {
      hide ListStands, YieldNow, Stands, AllUnfinished, Resume, Linked;
      YieldSplits(thisPtr, order, model, k, now);
      var from := thisPtr;
      var to := from.next;
      CountSwitch(from, k);
      if to == null {
        thisPtr := null;
        model := ToScheduler(model);
      } else {
        SwitchTo(to, now, k + 1);
      }
    }

    /** The coroutine's program counter moves on. */
    method Proceed(c: Proc, ghost k: nat, rest: Prog)
      requires Standing() && k < |order| && order[k] == c && AllUnfinished(model.list)
      modifies this`model, c`prog
      ensures Standing() && AllUnfinished(model.list)
      ensures model == old(model).(list := old(model).list[k := old(model).list[k].(prog := rest)])
    {
      hide Linked;
      Distinct(order, model.list);
      ghost var list := model.list;
      assert Stands(order[k], list[k]);
      c.prog := rest;
      model := model.(list := list[k := list[k].(prog := rest)]);
      ListUpdate(order, list, k, model.list[k]);
    }

    /** The counting of lines 39-47 and 218-224. */
    method CountTime(c: Proc, ghost k: nat, now: int)
      requires Standing() && k < |order| && order[k] == c
      modifies this`model, c`timeTotal, c`lastChecked
      ensures Standing()
      ensures model == old(model).(list := old(model).list[k := Checked(old(model).list[k], now)])
    {
      hide Linked;
      Distinct(order, model.list);
      ghost var list := model.list;
      assert Stands(order[k], list[k]);
      c.Check(now);
      model := model.(list := list[k := Checked(list[k], now)]);
      ListUpdate(order, list, k, model.list[k]);
    }

    /** yield_coro_period_end up to its decision, lines 38-49. */
    method ProceedChecked(c: Proc, ghost k: nat, rest: Prog, now: int)
      requires Standing() && k < |order| && order[k] == c && AllUnfinished(model.list)
      modifies this`model, c`prog, c`timeTotal, c`lastChecked
      ensures Standing() && AllUnfinished(model.list)
      ensures model == old(model).(list := old(model).list[k := Checked(old(model).list[k].(prog := rest), now)])
    {
      hide Linked, Stands;
      Proceed(c, k, rest);
      CountTime(c, k, now);
    }

    /** Behind the yield of yield_coro_period_end, lines 53-54. */
    method ProceedStamped(c: Proc, ghost k: nat, rest: Prog, now: int)
      requires Standing() && k < |order| && order[k] == c && AllUnfinished(model.list)
      modifies this`model, c`prog, c`lastChecked
      ensures Standing() && AllUnfinished(model.list)
      ensures model == old(model).(list := old(model).list[k := old(model).list[k].(prog := rest, lastChecked := now)])
    {
      hide Linked, Stands;
      Proceed(c, k, rest);
      RestartTime(c, k, now);
    }

    method RestartTime(c: Proc, ghost k: nat, now: int)
      requires Standing() && k < |order| && order[k] == c
      modifies this`model, c`lastChecked
      ensures Standing()
      ensures model == old(model).(list := old(model).list[k := old(model).list[k].(lastChecked := now)])
    {
      hide Linked;
      Distinct(order, model.list);
      ghost var list := model.list;
      assert Stands(order[k], list[k]);
      c.lastChecked := now;
      model := model.(list := list[k := list[k].(lastChecked := now)]);
      ListUpdate(order, list, k, model.list[k]);
    }

    /** Lines 215-216. */
    method SetFinished(c: Proc, ghost k: nat, r: int)
      requires Standing() && k < |order| && order[k] == c
      modifies this`model, c`ret, c`isFinished
      ensures Standing()
      ensures model == old(model).(list := old(model).list[k := old(model).list[k].(finished := true, ret := r)])
    {
      hide Linked;
      Distinct(order, model.list);
      ghost var list := model.list;
      assert Stands(order[k], list[k]);
      c.ret := r;
      c.isFinished := true;
      model := model.(list := list[k := list[k].(finished := true, ret := r)]);
      ListUpdate(order, list, k, model.list[k]);
    }

    /** The end of coro_body, lines 215-231: the jump to the scheduler. */
    method Finish(c: Proc, ghost k: nat, r: int, now: int)
      requires Standing() && k < |order| && order[k] == c && isSchedWaiting
      modifies this`model, this`thisPtr, c`ret, c`isFinished, c`timeTotal, c`lastChecked
      ensures Standing() && thisPtr == null
      ensures var d := Checked(old(model).list[k].(finished := true, ret := r), now);
        model == ToScheduler(old(model).(list := old(model).list[k := d]))
    {
      hide Linked, Stands;
      SetFinished(c, k, r);
      CountTime(c, k, now);
      // Lines 227-230: the "no place to return" exit is not taken.
      assert isSchedWaiting;
      thisPtr := null;
      model := ToScheduler(model);
    }

    /** The running coroutine does the next thing of its program. */
    method RunThis(ghost k: nat)
      requires Standing() && Sound(model) && model.at == Run(k) && isSchedWaiting
      modifies this`coroList, this`thisPtr, this`clock, this`order, this`model, order
      ensures Standing() && Sound(model)
      ensures Legal(old(model), Tick(clock)) && model == Apply(old(model), Tick(clock))
      ensures thisPtr == null <==> model.at == Loop
      ensures thisPtr != null ==> model.at.Run?
      ensures forall i :: 0 <= i < |order| ==> order[i] in old(order) || fresh(order[i])
    {
      hide Linked, ListStands, Stands, Accounted, YieldNow, Checked, AllUnfinished;
      var now := ReadClock(clock);
      SoundInductive(model, Tick(now));
      SoundIds(model);
      ProgramAt(order, model.list, k);
      clock := now;
      model := model.(clock := now);
      var c := thisPtr;
      match c.prog
      case Return(r) => Finish(c, k, r, now);
      case Yield(rest) =>
        Proceed(c, k, rest);
        Yield(now, k);
      case Tally(rest) => ProceedChecked(c, k, rest, now);
      case Stamp(rest) => ProceedStamped(c, k, rest, now);
      case Spawn(child, rest) =>
        Proceed(c, k, rest);
        var _ := New(child);
    }

    /** From the jump at line 180 until the scheduler has control again: coroutines run, one
        after the other. */
    method RunCoroutines(ghost start: State, ghost before: seq<Action>) returns (ghost run: seq<Action>)
      requires Standing() && Sound(model) && model.at.Run? && isSchedWaiting
      requires LegalRun(start, before) && model == After(start, before)
      modifies this`coroList, this`thisPtr, this`clock, this`order, this`model, order
      ensures Standing() && Sound(model) && model.at == Loop && Fuel(model) < old(Fuel(model))
      ensures !model.waiting && model.returned == old(model).returned
      ensures LegalRun(start, run) && model == After(start, run) && (NoCreate(before) ==> NoCreate(run))
      ensures forall i :: 0 <= i < |order| ==> order[i] in old(order) || fresh(order[i])
    {
      hide Linked, ListStands, Accounted, LegalRun, After, Apply, Fuel;
      run := before;
      while thisPtr != null
        invariant Standing() && Sound(model) && isSchedWaiting
        invariant if thisPtr == null then model.at == Loop else model.at.Run?
        invariant model.returned == old(model).returned
        invariant LegalRun(start, run) && model == After(start, run) && (NoCreate(before) ==> NoCreate(run))
        invariant forall i :: 0 <= i < |order| ==> order[i] in old(order) || fresh(order[i])
        invariant Fuel(model) <= old(Fuel(model))
        invariant thisPtr == null ==> Fuel(model) < old(Fuel(model))
        decreases Fuel(model), if thisPtr == null then 0 else 1
      {
        ghost var s := model;
        RunThis(model.at.k);
        RunReturnsNone(s, clock);
        TickBurns(s, clock);
        RunSnoc(start, run, Tick(clock));
        run := run + [Tick(clock)];
      }
    }

    /** Lines 173-174: the first finished coroutine in the list. */
    method FindFinished() returns (c: Proc?, ghost i: nat)
      requires Standing()
      ensures i == FirstFinished(model.list) <= |order| == |model.list| && c == ProcAt(order, i)
    {
      hide Stands, ListStands;
      c, i := coroList, 0;
      ListLength(order, model.list);
      while c != null
        invariant i <= |order| && c == ProcAt(order, i)
        invariant forall k :: 0 <= k < i ==> !model.list[k].finished
        decreases |order| - i
      {
        ProgramAt(order, model.list, i);
        if c.isFinished {
          break;
        }
        c, i := c.next, i + 1;
      }
      FirstFinishedAt(model.list, i);
    }

    /** Lines 175-176: it leaves the list. */
    method TakeOut(c: Proc, ghost i: nat)
      requires Standing() && Sound(model) && model.at == Loop && i == FirstFinished(model.list) < |order|
          && order[i] == c
      modifies this`coroList, this`order, this`model, order`next, order`prev
      ensures Standing() && Sound(model) && model.at == Main && model.waiting == old(model).waiting
      ensures Legal(old(model), Tick(clock)) && model == Apply(old(model), Tick(clock))
      ensures forall k :: 0 <= k < |order| ==> order[k] in old(order)
      ensures |model.returned| == |old(model).returned| + 1
          && model.returned[..|old(model).returned|] == old(model).returned
      ensures Stands(c, model.returned[|model.returned| - 1])
      ensures c.isFinished
    {
      hide Linked, ListStands, Stands, FirstFinished, Sound, Apply, LoopStep;
      ProgramAt(order, model.list, i);
      HandOut(model, i);
      Distinct(order, model.list);
      ListWithout(order, model.list, i);
      ListDelete(c, i);
      model := LoopStep(model, clock);
    }

    /** Lines 179-180: control goes to the head of the list. */
    method EnterHead()
      requires Standing() && Sound(model) && model.at == Loop
      requires order != [] && FirstFinished(model.list) == |order|
      modifies this`isSchedWaiting, this`thisPtr, this`schedSwitches, this`clock, this`model, order`lastChecked,
          order`resumed
      ensures Standing() && Sound(model) && isSchedWaiting && model.at == Run(0)
      ensures model.returned == old(model).returned
      ensures Legal(old(model), Tick(clock)) && model == Apply(old(model), Tick(clock))
    {
      hide Linked, ListStands, Accounted, FirstFinished;
      ListLength(order, model.list);
      FirstFinishedIs(model.list);
      ProgramAt(order, model.list, 0);
      var now := ReadClock(clock);
      SoundInductive(model, Tick(now));
      isSchedWaiting := true;
      clock := now;
      schedSwitches := schedSwitches + 1;
      model := model.(clock := now, waiting := true, schedSwitches := model.schedSwitches + 1);
      SwitchTo(coroList, now, 0);
    }

    /** Lines 179-181: from the jump until the scheduler has control again. */
    method Round(ghost start: State, ghost before: seq<Action>) returns (ghost run: seq<Action>)
      requires Valid() && model.at == Loop && order != [] && FirstFinished(model.list) == |order|
      requires LegalRun(start, before) && model == After(start, before) && NoCreate(before)
      modifies this, order
      ensures Valid() && model.at == Loop && model.returned == old(model).returned && Fuel(model) < old(Fuel(model))
      ensures LegalRun(start, run) && model == After(start, run) && NoCreate(run)
      ensures forall i :: 0 <= i < |order| ==> order[i] in old(order) || fresh(order[i])
    {
      hide Linked, ListStands, Stands, Accounted, LegalRun, After, Fuel, FirstFinished, Apply, Control;
      ghost var s := model;
      EnterHead();
      TickBurns(s, clock);
      RunSnoc(start, before, Tick(clock));
      run := RunCoroutines(start, before + [Tick(clock)]);
      isSchedWaiting := false;
    }

    /** coro_sched_wait, lines 169-184. It ends, whatever the programs are, and comes back with a
        finished coroutine, or with null when none is left. */
    method SchedWait() returns (c: Proc?, ghost run: seq<Action>)
      requires Valid() && model.at == Main
      modifies this, order
      ensures Valid() && model.at == Main
      ensures LegalRun(old(model), run) && model == After(old(model), run) && NoCreate(run)
      ensures c == null ==> model.list == [] && model.returned == old(model).returned
      ensures c != null ==>
        |model.returned| == |old(model).returned| + 1 && model.returned[..|old(model).returned|] == old(model).returned
      ensures c != null ==> c.isFinished && Stands(c, model.returned[|model.returned| - 1])
      ensures forall i :: 0 <= i < |order| ==> order[i] in old(order) || fresh(order[i])
    {
      hide Linked, ListStands, Stands, Accounted, LegalRun, After, Fuel, FirstFinished, Apply, Control;
      ghost var start := model;
      RunNothing(start);
      RunSnoc(start, [], CallWait);
      run := [] + [CallWait];
      StartWaiting(start);
      model := model.(at := Loop);
      while coroList != null
        invariant Valid() && model.at == Loop && model.returned == start.returned
        invariant LegalRun(start, run) && model == After(start, run) && NoCreate(run)
        invariant forall i :: 0 <= i < |order| ==> order[i] in old(order) || fresh(order[i])
        decreases Fuel(model)
      {
        ghost var i;
        c, i := FindFinished();
        if c != null {
          TakeOut(c, i);
          RunSnoc(start, run, Tick(clock));
          run := run + [Tick(clock)];
          return;
        }
        run := Round(start, run);
      }
      ListLength(order, model.list);
      NothingLeft(model);
      RunSnoc(start, run, Tick(clock));
      run := run + [Tick(clock)];
      model := model.(at := Main);
      c := null;
    }
  }

  /** A coroutine's step hands nothing out. */
  lemma RunReturnsNone(s: State, now: int)
    requires s.at.Run? && Legal(s, Tick(now))
    ensures Apply(s, Tick(now)).returned == s.returned
  {
  }

  /** The loop hands out the coroutine at f. */
  lemma HandOut(s: State, f: nat)
    requires Sound(s) && s.at == Loop && f == FirstFinished(s.list) < |s.list|
    ensures var t := LoopStep(s, s.clock);
      && Legal(s, Tick(s.clock)) && Apply(s, Tick(s.clock)) == t && Sound(t)
      && s.list[f].finished
      && t == s.(list := s.list[..f] + s.list[f + 1..], returned := s.returned + [s.list[f]], at := Main)
  {
    SoundInductive(s, Tick(s.clock));
    assert s.(clock := s.clock) == s;
    FirstFinishedIs(s.list);
  }

  lemma StartWaiting(s: State)
    requires Sound(s) && s.at == Main
    ensures Legal(s, CallWait) && Apply(s, CallWait) == s.(at := Loop) && Sound(s.(at := Loop)) && !s.waiting
  {
    SoundInductive(s, CallWait);
  }

  lemma NothingLeft(s: State)
    requires Sound(s) && s.at == Loop && s.list == []
    ensures Legal(s, Tick(s.clock)) && Apply(s, Tick(s.clock)) == s.(at := Main) && Sound(s.(at := Main))
  {
    SoundInductive(s, Tick(s.clock));
    assert s.(clock := s.clock) == s;
  }

  lemma FirstFinishedAt(list: seq<Coro>, f: nat)
    requires f <= |list| && (f < |list| ==> list[f].finished) && forall i :: 0 <= i < f ==> !list[i].finished
    ensures FirstFinished(list) == f
  {
    FirstFinishedIs(list);
  }

  lemma ListLength(order: seq<Proc>, list: seq<Coro>)
    requires ListStands(order, list)
    ensures |order| == |list|
  {
  }

  lemma ListWithout(order: seq<Proc>, list: seq<Coro>, f: nat)
    requires ListStands(order, list) && f < |order|
    ensures ListStands(order[..f] + order[f + 1..], list[..f] + list[f + 1..])
  {
    hide Stands;
    var order', list' := order[..f] + order[f + 1..], list[..f] + list[f + 1..];
    forall i | 0 <= i < |list'|
      ensures list'[i] == list[if i < f then i else i + 1] && order'[i] == order[if i < f then i else i + 1]
    {
    }
  }

  lemma ProgramAt(order: seq<Proc>, list: seq<Coro>, k: nat)
    requires ListStands(order, list) && k < |order|
    ensures |order| == |list| && order[k].prog == list[k].prog && order[k].isFinished == list[k].finished
    ensures Stands(order[k], list[k])
  {
    assert Stands(order[k], list[k]);
  }

  lemma SoundIds(s: State)
    requires Sound(s)
    ensures forall i :: 0 <= i < |s.list| ==> s.list[i].id < s.nextId
  {
    var all := s.list + s.returned;
    assert forall i :: 0 <= i < |s.list| ==> all[i] == s.list[i];
  }
}
