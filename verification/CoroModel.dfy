/** The cooperative scheduler of 1/libcoro.c as a machine: one step is what one context does
    up to its next reading of the clock. A coroutine's behaviour is a finite program; how a
    clock-driven quantum falls is part of the program, so every program covers every clock. */
module CoroModel {
  import opened Common

  /** What a coroutine does: return a value, call coro_yield, count the time it has worked
      (39-47), start counting anew (53-54), or create another coroutine, and go on. */
  datatype Prog =
    | Return(ret: int)
    | Yield(rest: Prog)
    | Tally(rest: Prog)
    | Stamp(rest: Prog)
    | Spawn(child: Prog, rest: Prog)

  /** A call of yield_coro_period_end (38-57), which yields when the period is over. */
  function PeriodEnd(over: bool, rest: Prog): (p: Prog)
    ensures Yields(p) == (if over then 1 else 0) + Yields(rest) && Result(p) == Result(rest)
  {
    if over then
      assert Yields(Stamp(rest)) == Yields(rest) && Result(Stamp(rest)) == Result(rest);
      Tally(Yield(Stamp(rest)))
    else Tally(rest)
  }

  /** How often the program gives up control before it returns. */
  function Yields(p: Prog): nat {
    match p
    case Return(_) => 0
    case Yield(rest) => 1 + Yields(rest)
    case Tally(rest) => Yields(rest)
    case Stamp(rest) => Yields(rest)
    case Spawn(_, rest) => Yields(rest)
  }

  /** The value it returns in the end. */
  function Result(p: Prog): int {
    match p
    case Return(r) => r
    case Yield(rest) => Result(rest)
    case Tally(rest) => Result(rest)
    case Stamp(rest) => Result(rest)
    case Spawn(_, rest) => Result(rest)
  }

  predicate SpawnFree(p: Prog) {
    match p
    case Return(_) => true
    case Yield(rest) => SpawnFree(rest)
    case Tally(rest) => SpawnFree(rest)
    case Stamp(rest) => SpawnFree(rest)
    case Spawn(_, _) => false
  }

  /** struct coro. `prog` is what is left to do; `start` and `resumed` are history: the whole
      program, and how often control came to it. */
  datatype Coro = Coro(
    id: nat, prog: Prog, finished: bool, ret: int, switches: nat,
    lastChecked: int, timeTotal: int, start: Prog, resumed: nat)

  function NewCoro(id: nat, prog: Prog): Coro {
    Coro(id, prog, false, 0, 0, 0, 0, prog, 0)
  }

  /** Who runs: the main program outside coro_sched_wait, the head of its loop, or the
      coroutine at a list position. */
  datatype Where = Main | Loop | Run(k: nat)

  /** The globals. `list` is coro_list, head first; `current` is coro_this_ptr, None for the
      scheduler; `returned` holds what coro_sched_wait has handed out; `fault` is set when
      control goes to a finished coroutine, when coro_this_ptr is not in the list, or at the
      "no place to return" exit. */
  datatype State = State(
    list: seq<Coro>,
    at: Where,
    current: Option<nat>,
    waiting: bool,
    schedSwitches: nat,
    returned: seq<Coro>,
    nextId: nat,
    clock: int,
    fault: bool)

  function Initial(now: int): State {
    State([], Main, None, false, 0, [], 0, now, false)
  }

  /** Where the coroutine with this identity is, or the length. */
  function IndexOf(list: seq<Coro>, id: nat): nat {
    if list == [] || list[0].id == id then 0 else 1 + IndexOf(list[1..], id)
  }

  /** The first finished coroutine, or the length (lines 173-174). */
  function FirstFinished(list: seq<Coro>): nat {
    if list == [] || list[0].finished then 0 else 1 + FirstFinished(list[1..])
  }

  /** The jump of line 147 to a coroutine, which then names itself (148, 214). */
  function Resume(s: State, k: nat, now: int): State
    requires k < |s.list|
  {
    var c := s.list[k];
    s.(list := s.list[k := c.(lastChecked := now, resumed := c.resumed + 1)],
       at := Run(k), current := Some(c.id), fault := s.fault || c.finished)
  }

  /** Control comes back to the scheduler (148, 181). */
  function ToScheduler(s: State): State {
    s.(at := Loop, current := None, waiting := false)
  }

  /** coro_yield, lines 151-160: from whoever coro_this_ptr names to the next in the list, or to
      the scheduler. */
  function YieldNow(s: State, now: int): State {
    if s.current.None? || IndexOf(s.list, s.current.value) >= |s.list| then s.(fault := true)
    else
      var i := IndexOf(s.list, s.current.value);
      var t := s.(list := s.list[i := s.list[i].(switches := s.list[i].switches + 1)]);
      if i + 1 < |s.list| then Resume(t, i + 1, now) else ToScheduler(t)
  }

  /** Lines 45-47 and 221-224: the time since the last check is counted. */
  function Checked(c: Coro, now: int): Coro {
    c.(timeTotal := c.timeTotal + (now - c.lastChecked), lastChecked := now)
  }

  /** The coroutine at k does the next thing of its program. */
  function RunStep(s: State, k: nat, now: int): State
    requires k < |s.list|
  {
    var c := s.list[k];
    match c.prog
    case Return(r) =>
      var t := s.(list := s.list[k := Checked(c.(finished := true, ret := r), now)]);
      if s.waiting then ToScheduler(t) else t.(fault := true)
    case Yield(rest) => YieldNow(s.(list := s.list[k := c.(prog := rest)]), now)
    case Tally(rest) => s.(list := s.list[k := Checked(c.(prog := rest), now)])
    case Stamp(rest) => s.(list := s.list[k := c.(prog := rest, lastChecked := now)])
    case Spawn(child, rest) =>
      s.(list := [NewCoro(s.nextId, child)] + s.list[k := c.(prog := rest)], at := Run(k + 1), nextId := s.nextId + 1)
  }

  /** One turn of the loop of coro_sched_wait, lines 172-182. */
  function LoopStep(s: State, now: int): State {
    if s.list == [] then s.(at := Main)
    else
      var f := FirstFinished(s.list);
      if f < |s.list| then
        s.(list := s.list[..f] + s.list[f + 1..], returned := s.returned + [s.list[f]], at := Main)
      else Resume(s.(waiting := true, schedSwitches := s.schedSwitches + 1), 0, now)
  }

  /** Create: coro_new by the main program. CallWait: coro_sched_wait. Tick: whoever has control
      goes on, the clock showing `now`. */
  datatype Action = Create(prog: Prog) | CallWait | Tick(now: int)

  predicate Legal(s: State, a: Action) {
    match a
    case Create(_) => s.at.Main?
    case CallWait => s.at.Main?
    case Tick(now) => !s.at.Main? && (s.at.Run? ==> s.at.k < |s.list|) && s.clock <= now
  }

  function Apply(s: State, a: Action): State
    requires Legal(s, a)
  {
    match a
    case Create(prog) => s.(list := [NewCoro(s.nextId, prog)] + s.list, nextId := s.nextId + 1)
    case CallWait => s.(at := Loop)
    case Tick(now) =>
      var t := s.(clock := now);
      if s.at.Run? then RunStep(t, s.at.k, now) else LoopStep(t, now)
  }

  ghost predicate LegalRun(s: State, run: seq<Action>)
    decreases |run|
  {
    run != [] ==> Legal(s, run[0]) && LegalRun(Apply(s, run[0]), run[1..])
  }

  ghost function After(s: State, run: seq<Action>): State
    requires LegalRun(s, run)
    decreases |run|
  {
    if run == [] then s else After(Apply(s, run[0]), run[1..])
  }

  /** The main program creates nothing on the way. */
  predicate NoCreate(run: seq<Action>) {
    forall i :: 0 <= i < |run| ==> !run[i].Create?
  }
}
