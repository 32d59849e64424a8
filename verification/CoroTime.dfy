/** What happens to one coroutine in a run, and the time it is credited with, exactly. */
module CoroTime {
  import opened Common
  import opened CoroModel
  import opened CoroTheorems

  // ---- one coroutine among the others ----

  /** The coroutine with this identity, if there is one. */
  function RecordIn(cs: seq<Coro>, id: nat): Option<Coro> {
    if cs == [] then None else if cs[0].id == id then Some(cs[0]) else RecordIn(cs[1..], id)
  }

  function RecordOf(s: State, id: nat): Option<Coro> {
    RecordIn(s.list + s.returned, id)
  }

  ghost predicate Distinct(cs: seq<Coro>) {
    forall i, j :: 0 <= i < j < |cs| ==> cs[i].id != cs[j].id
  }

  lemma {:induction false} RecordAt(cs: seq<Coro>, i: nat)
    requires Distinct(cs) && i < |cs|
    ensures RecordIn(cs, cs[i].id) == Some(cs[i])
  {
    if i > 0 {
      assert cs[1..][i - 1] == cs[i];
      RecordAt(cs[1..], i - 1);
    }
  }

  lemma {:induction false} RecordNone(cs: seq<Coro>, id: nat)
    ensures RecordIn(cs, id).None? <==> forall i :: 0 <= i < |cs| ==> cs[i].id != id
  {
    if cs != [] {
      RecordNone(cs[1..], id);
      assert forall i :: 1 <= i < |cs| ==> cs[i] == cs[1..][i - 1];
    }
  }

  /** Two sequences with the same coroutine of this identity, or none. */
  lemma SameRecord(a: seq<Coro>, i: nat, b: seq<Coro>, j: nat)
    requires Distinct(a) && Distinct(b) && i < |a| && j < |b| && a[i].id == b[j].id
    ensures RecordIn(a, a[i].id) == Some(a[i]) && RecordIn(b, a[i].id) == Some(b[j])
  {
    RecordAt(a, i);
    RecordAt(b, j);
  }

  // ---- what happens to one coroutine, told from the actions and from who is running ----

  datatype What = Nothing | Born(prog: Prog) | Resumed(now: int) | Acts(now: int)

  predicate Runs(s: State, id: nat) {
    s.at.Run? && s.at.k < |s.list| && s.list[s.at.k].id == id
  }

  /** Control goes to the head when a round begins, and from one that yields to the next. */
  predicate GetsControl(s: State, id: nat) {
    if s.at.Loop? then s.list != [] && AllOpen(s.list) && s.list[0].id == id
    else
      && s.at.Run? && s.at.k + 1 < |s.list|
      && s.list[s.at.k].prog.Yield? && s.list[s.at.k + 1].id == id
  }

  predicate AllOpen(list: seq<Coro>) {
    forall i :: 0 <= i < |list| ==> !list[i].finished
  }

  function Happens(s: State, a: Action, id: nat): What {
    match a
    case CallWait => Nothing
    case Create(prog) => if id == s.nextId then Born(prog) else Nothing
    case Tick(now) =>
      if Runs(s, id) then Acts(now)
      else if GetsControl(s, id) then Resumed(now)
      else if s.at.Run? && s.at.k < |s.list| && s.list[s.at.k].prog.Spawn? && id == s.nextId
      then Born(s.list[s.at.k].prog.child)
      else Nothing
  }

  /** What that makes of it. */
  function Becomes(r: Option<Coro>, id: nat, what: What): Option<Coro> {
    match what
    case Nothing => r
    case Born(prog) => Some(NewCoro(id, prog))
    case Resumed(now) =>
      if r.None? then None else Some(r.value.(lastChecked := now, resumed := r.value.resumed + 1))
    case Acts(now) =>
      if r.None? then None
      else
        var c := r.value;
        match c.prog
        case Return(v) =>
          Some(c.(finished := true, ret := v, timeTotal := c.timeTotal + now - c.lastChecked, lastChecked := now))
        case Yield(rest) => Some(c.(prog := rest, switches := c.switches + 1))
        case Tally(rest) =>
          Some(c.(prog := rest, timeTotal := c.timeTotal + now - c.lastChecked, lastChecked := now))
        case Stamp(rest) => Some(c.(prog := rest, lastChecked := now))
        case Spawn(_, rest) => Some(c.(prog := rest))
  }

  lemma SoundDistinct(s: State)
    requires Sound(s)
    ensures Distinct(s.list + s.returned) && forall c :: c in s.list + s.returned ==> c.id < s.nextId
  {
  }

  /** One cell of the list changes, but not its identity. */
  lemma CellChanged(s: State, k: nat, c: Coro, id: nat)
    requires Distinct(s.list + s.returned) && k < |s.list| && c.id == s.list[k].id
    ensures Distinct(s.list[k := c] + s.returned)
    ensures RecordIn(s.list[k := c] + s.returned, id) == if id == c.id then Some(c) else RecordOf(s, id)
    ensures id == c.id ==> RecordOf(s, id) == Some(s.list[k])
  {
    var a, b := s.list + s.returned, s.list[k := c] + s.returned;
    assert b == a[k := c];
    assert forall i :: 0 <= i < |a| ==> b[i].id == a[i].id;
    if id == c.id {
      RecordAt(a, k);
      RecordAt(b, k);
    } else if i :| 0 <= i < |a| && a[i].id == id {
      SameRecord(a, i, b, i);
    } else {
      RecordNone(a, id);
      RecordNone(b, id);
    }
  }

  lemma Newborn(list: seq<Coro>, returned: seq<Coro>, c: Coro, id: nat)
    ensures RecordIn([c] + list + returned, id) == if id == c.id then Some(c) else RecordIn(list + returned, id)
  {
    assert ([c] + list + returned)[1..] == list + returned;
  }

  lemma HandedOut(list: seq<Coro>, returned: seq<Coro>, f: nat, id: nat)
    requires Distinct(list + returned) && f < |list|
    ensures RecordIn(list[..f] + list[f + 1..] + (returned + [list[f]]), id) == RecordIn(list + returned, id)
  {
    var a, b := list + returned, list[..f] + list[f + 1..] + (returned + [list[f]]);
    var n := |a|;
    assert |b| == n;
    assert forall i :: 0 <= i < n ==> b[i] == a[if i < f then i else if i == n - 1 then f else i + 1];
    if i :| 0 <= i < n && a[i].id == id {
      var j := if i < f then i else if i == f then n - 1 else i - 1;
      assert b[j] == a[i];
      SameRecord(a, i, b, j);
    } else {
      RecordNone(a, id);
      RecordNone(b, id);
    }
  }
  lemma YieldRecord(s: State, k: nat, now: int, id: nat)
    requires Distinct(s.list + s.returned) && k < |s.list| && s.current == Some(s.list[k].id)
    ensures var c := s.list[k]; var d := c.(switches := c.switches + 1);
      RecordOf(YieldNow(s, now), id) ==
        if id == c.id then Some(d)
        else if k + 1 < |s.list| && id == s.list[k + 1].id then
          Some(s.list[k + 1].(lastChecked := now, resumed := s.list[k + 1].resumed + 1))
        else RecordOf(s, id)
  {
    var c := s.list[k];
    var d := c.(switches := c.switches + 1);
    assert forall i :: 0 <= i < k ==> (s.list + s.returned)[i] == s.list[i];
    assert (s.list + s.returned)[k] == c;
    IndexOfIs(s.list, k);
    CellChanged(s, k, d, id);
    var t := s.(list := s.list[k := d]);
    if k + 1 < |s.list| {
      var e := t.list[k + 1];
      assert (s.list + s.returned)[k + 1] == e;
      CellChanged(t, k + 1, e.(lastChecked := now, resumed := e.resumed + 1), id);
    }
  }

  lemma SpawnRecord(s: State, k: nat, now: int, id: nat)
    requires Distinct(s.list + s.returned) && k < |s.list| && s.list[k].prog.Spawn? && s.list[k].id < s.nextId
    ensures var c := s.list[k];
      RecordOf(RunStep(s, k, now), id) ==
        if id == s.nextId then Some(NewCoro(id, c.prog.child))
        else if id == c.id then Some(c.(prog := c.prog.rest))
        else RecordOf(s, id)
  {
    var c := s.list[k];
    CellChanged(s, k, c.(prog := c.prog.rest), id);
    Newborn(s.list[k := c.(prog := c.prog.rest)], s.returned, NewCoro(s.nextId, c.prog.child), id);
  }

  lemma RunRecord(s: State, k: nat, now: int, id: nat)
    requires Sound(s) && s.at == Run(k)
    ensures k < |s.list|
    ensures RecordOf(RunStep(s, k, now), id) == Becomes(RecordOf(s, id), id, Happens(s, Tick(now), id))
  {
    hide RecordIn, YieldNow;
    SoundDistinct(s);
    var c := s.list[k];
    assert c in s.list + s.returned;
    CellChanged(s, k, c, id);
    match c.prog
    case Return(r) => CellChanged(s, k, Checked(c.(finished := true, ret := r), now), id);
    case Tally(rest) => CellChanged(s, k, Checked(c.(prog := rest), now), id);
    case Stamp(rest) => CellChanged(s, k, c.(prog := rest, lastChecked := now), id);
    case Spawn(child, rest) => SpawnRecord(s, k, now, id);
    case Yield(rest) =>
      var t := s.(list := s.list[k := c.(prog := rest)]);
      CellChanged(s, k, c.(prog := rest), id);
      if k + 1 < |s.list| {
        assert (s.list + s.returned)[k + 1] == s.list[k + 1] && (s.list + s.returned)[k] == c;
        CellChanged(s, k + 1, s.list[k + 1], id);
      }
      YieldRecord(t, k, now, id);
  }

  lemma LoopRecord(s: State, now: int, id: nat)
    requires Sound(s) && s.at == Loop
    ensures RecordOf(LoopStep(s, now), id) == Becomes(RecordOf(s, id), id, Happens(s, Tick(now), id))
  {
    SoundDistinct(s);
    FirstFinishedIs(s.list);
    var f := FirstFinished(s.list);
    if s.list != [] && f < |s.list| {
      HandedOut(s.list, s.returned, f, id);
    } else if s.list != [] {
      var c := s.list[0];
      CellChanged(s, 0, c.(lastChecked := now, resumed := c.resumed + 1), id);
    }
  }

  /** A step of the machine is, for each coroutine, what happens to it. */
  lemma RecordStep(s: State, a: Action, id: nat)
    requires Sound(s) && Legal(s, a)
    ensures RecordOf(Apply(s, a), id) == Becomes(RecordOf(s, id), id, Happens(s, a, id))
  {
    hide RunStep, LoopStep, Sound;
    match a
    case Create(prog) => Newborn(s.list, s.returned, NewCoro(s.nextId, prog), id);
    case CallWait =>
    case Tick(now) =>
      ClockOnly(s, now, id);
      var t := s.(clock := now);
      if s.at.Run? {
        RunRecord(t, s.at.k, now, id);
      } else {
        LoopRecord(t, now, id);
      }
  }

  lemma ClockOnly(s: State, now: int, id: nat)
    requires Sound(s)
    ensures var t := s.(clock := now);
      Sound(t) && RecordOf(t, id) == RecordOf(s, id) && Happens(t, Tick(now), id) == Happens(s, Tick(now), id)
  {
  }

  // ---- the time that counts ----

  /** The coroutine counts its time at this step: it tallies, or it returns. */
  predicate Counts(s: State, id: nat) {
    Runs(s, id) && (s.list[s.at.k].prog.Tally? || s.list[s.at.k].prog.Return?)
  }

  /** It starts counting anew: it gets control, or it stamps. */
  predicate Restarts(s: State, id: nat) {
    if Runs(s, id) then s.list[s.at.k].prog.Stamp? else GetsControl(s, id)
  }

  /** The sum, over the ticks of a run at which the coroutine counts its time, of the time since
      the last tick at which it counted or started counting; `last` is that of the latest
      one before the run. */
  ghost function Worked(s: State, run: seq<Action>, id: nat, last: int): int
    requires LegalRun(s, run)
    decreases |run|
  {
    if run == [] then 0
    else
      var a, t := run[0], Apply(s, run[0]);
      if a.Tick? && Counts(s, id) then a.now - last + Worked(t, run[1..], id, a.now)
      else Worked(t, run[1..], id, if a.Tick? && Restarts(s, id) then a.now else last)
  }

  function TimeOf(r: Option<Coro>): int {
    if r.Some? then r.value.timeTotal else 0
  }

  function LastOf(r: Option<Coro>): int {
    if r.Some? then r.value.lastChecked else 0
  }

  lemma RunnerIsListed(s: State, id: nat)
    requires Sound(s) && (Runs(s, id) || GetsControl(s, id))
    ensures RecordOf(s, id).Some?
    ensures Runs(s, id) ==> RecordOf(s, id) == Some(s.list[s.at.k])
  {
    SoundDistinct(s);
    var k := if Runs(s, id) then s.at.k else if s.at.Loop? then 0 else s.at.k + 1;
    assert (s.list + s.returned)[k] == s.list[k];
    RecordAt(s.list + s.returned, k);
  }

  lemma NewIsNotListed(s: State)
    requires Sound(s)
    ensures RecordOf(s, s.nextId).None?
  {
    SoundDistinct(s);
    RecordNone(s.list + s.returned, s.nextId);
    assert forall i :: 0 <= i < |s.list + s.returned| ==> (s.list + s.returned)[i] in s.list + s.returned;
  }

  lemma TimeStep(s: State, a: Action, id: nat)
    requires Sound(s) && Legal(s, a)
    ensures var r, r' := RecordOf(s, id), RecordOf(Apply(s, a), id);
      && TimeOf(r') == TimeOf(r) + (if a.Tick? && Counts(s, id) then a.now - LastOf(r) else 0)
      && LastOf(r') == if a.Tick? && (Counts(s, id) || Restarts(s, id)) then a.now else LastOf(r)
  {
    hide Apply, Sound, RecordOf, Legal;
    RecordStep(s, a, id);
    NewIsNotListed(s);
    if Runs(s, id) || GetsControl(s, id) {
      RunnerIsListed(s, id);
    }
  }

  lemma {:induction false} TimeAdds(s: State, run: seq<Action>, id: nat)
    requires Sound(s) && LegalRun(s, run)
    ensures TimeOf(RecordOf(After(s, run), id)) ==
      TimeOf(RecordOf(s, id)) + Worked(s, run, id, LastOf(RecordOf(s, id)))
    decreases |run|
  {
    hide Sound, RecordOf, Legal, Apply, Counts, Restarts;
    if run != [] {
      SoundInductive(s, run[0]);
      TimeStep(s, run[0], id);
      TimeAdds(Apply(s, run[0]), run[1..], id);
    }
  }

  /** In every run, the time of every coroutine, listed or handed out, is exactly the time it
      has worked. */
  lemma TimeIsWorked(t0: int, run: seq<Action>, c: Coro)
    requires LegalRun(Initial(t0), run)
    requires var s := After(Initial(t0), run); c in s.list || c in s.returned
    ensures c.timeTotal == Worked(Initial(t0), run, c.id, 0)
  {
    hide After, LegalRun, Worked, Sound;
    SoundInitially(t0);
    SoundAlways(Initial(t0), run);
    TimeAdds(Initial(t0), run, c.id);
    ListedRecord(After(Initial(t0), run), c);
  }

  lemma SoundInitially(t0: int)
    ensures Sound(Initial(t0)) && forall id: nat :: RecordOf(Initial(t0), id).None?
  {
  }

  lemma ListedRecord(s: State, c: Coro)
    requires Sound(s) && (c in s.list || c in s.returned)
    ensures RecordOf(s, c.id) == Some(c)
  {
    SoundDistinct(s);
    var all := s.list + s.returned;
    assert c in all;
    var i :| 0 <= i < |all| && all[i] == c;
    RecordAt(all, i);
  }

  // ---- coroutines that yield at the end of a period only ----

  /** The program gives up control only in yield_coro_period_end. */
  predicate Periodic(p: Prog) {
    match p
    case Return(_) => true
    case Yield(_) => false
    case Stamp(_) => false
    case Tally(rest) => if rest.Yield? then rest.rest.Stamp? && Periodic(rest.rest.rest) else Periodic(rest)
    case Spawn(_, rest) => Periodic(rest)
  }

  lemma PeriodEndIsPeriodic(over: bool, rest: Prog)
    requires Periodic(rest)
    ensures Periodic(PeriodEnd(over, rest))
  {
    if over {
      assert PeriodEnd(over, rest) == Tally(Yield(Stamp(rest)));
    }
  }

  /** A stretch of work ends: the period is over, or the coroutine returns. */
  predicate Stops(s: State, id: nat) {
    Runs(s, id) && var p := s.list[s.at.k].prog; p.Return? || (p.Tally? && p.rest.Yield?)
  }

  /** The total length of the stretches that end in a run; the current one began at `start`. */
  ghost function Stretches(s: State, run: seq<Action>, id: nat, start: int): int
    requires LegalRun(s, run)
    decreases |run|
  {
    if run == [] then 0
    else
      var a := run[0];
      (if a.Tick? && Stops(s, id) then a.now - start else 0)
      + Stretches(Apply(s, a), run[1..], id, if a.Tick? && Restarts(s, id) then a.now else start)
  }

  ghost function LastStart(s: State, run: seq<Action>, id: nat, start: int): int
    requires LegalRun(s, run)
    decreases |run|
  {
    if run == [] then start
    else LastStart(Apply(s, run[0]), run[1..], id, if run[0].Tick? && Restarts(s, id) then run[0].now else start)
  }

  /** The credited time is that of the stretches that have ended, and of the current one up to
      the last reading of the clock. */
  ghost predicate Fits(s: State, id: nat, ended: int, start: int) {
    FitsRecord(RecordOf(s, id), Runs(s, id), ended, start)
  }

  predicate FitsRecord(r: Option<Coro>, runs: bool, ended: int, start: int) {
    match r
    case None => ended == 0 && start == 0
    case Some(c) =>
      if c.finished then c.timeTotal == ended
      else if c.prog.Yield? then c.prog.rest.Stamp? && Periodic(c.prog.rest.rest) && c.timeTotal == ended
      else if c.prog.Stamp? then Periodic(c.prog.rest) && c.timeTotal == ended
      else
        && Periodic(c.prog) && c.timeTotal == ended + (c.lastChecked - start)
        && (!runs ==> c.lastChecked == start)
  }

  /** Control stays with a coroutine that neither yields nor returns. */
  lemma StillRuns(s: State, a: Action, id: nat)
    requires Sound(s) && Legal(s, a) && Runs(s, id)
    requires a.Tick? && !s.list[s.at.k].prog.Yield? && !s.list[s.at.k].prog.Return?
    ensures Runs(Apply(s, a), id)
  {
  }

  lemma RunnerIsOpen(s: State, id: nat)
    requires Sound(s) && Runs(s, id)
    ensures !s.list[s.at.k].finished
    ensures forall a :: Legal(s, a) ==> a.Tick?
  {
  }

  lemma ActsFits(c: Coro, id: nat, now: int, runs: bool, ended: int, start: int)
    requires FitsRecord(Some(c), true, ended, start) && !c.finished
    requires !c.prog.Yield? && !c.prog.Return? ==> runs
    ensures FitsRecord(Becomes(Some(c), id, Acts(now)), runs,
        ended + (if c.prog.Return? || (c.prog.Tally? && c.prog.rest.Yield?) then now - start else 0),
        if c.prog.Stamp? then now else start)
  {
    if !c.prog.Return? {
      var rest := c.prog.rest;
      assert Periodic(rest) ==> !rest.Yield? && !rest.Stamp?;
    }
  }

  lemma ResumedFits(r: Option<Coro>, id: nat, now: int, runs: bool, ended: int, start: int)
    requires r.Some? && FitsRecord(r, false, ended, start)
    ensures FitsRecord(Becomes(r, id, Resumed(now)), runs, ended, now)
  {
  }

  lemma OtherFits(r: Option<Coro>, id: nat, what: What, runs: bool, ended: int, start: int)
    requires FitsRecord(r, false, ended, start) && (what.Nothing? || (what.Born? && r.None? && Periodic(what.prog)))
    ensures FitsRecord(Becomes(r, id, what), runs, ended, start)
  {
  }

  lemma FitsStep(s: State, a: Action, id: nat, ended: int, start: int)
    requires Sound(s) && Legal(s, a) && Fits(s, id, ended, start)
    requires var w := Happens(s, a, id); w.Born? ==> Periodic(w.prog)
    ensures Fits(Apply(s, a), id,
        ended + (if a.Tick? && Stops(s, id) then a.now - start else 0),
        if a.Tick? && Restarts(s, id) then a.now else start)
  {
    hide Sound, RecordOf, Legal, Apply, FitsRecord, Becomes;
    RecordStep(s, a, id);
    NewIsNotListed(s);
    var runs := Runs(Apply(s, a), id);
    if Runs(s, id) {
      RunnerIsListed(s, id);
      RunnerIsOpen(s, id);
      var c := s.list[s.at.k];
      if !c.prog.Yield? && !c.prog.Return? {
        StillRuns(s, a, id);
      }
      ActsFits(c, id, a.now, runs, ended, start);
    } else if a.Tick? && GetsControl(s, id) {
      RunnerIsListed(s, id);
      ResumedFits(RecordOf(s, id), id, a.now, runs, ended, start);
    } else {
      OtherFits(RecordOf(s, id), id, Happens(s, a, id), runs, ended, start);
    }
  }

  /** No coroutine changes its program's beginning, and none is lost. */
  lemma {:induction false} StartKept(s: State, run: seq<Action>, id: nat)
    requires Sound(s) && LegalRun(s, run) && RecordOf(s, id).Some?
    ensures var r := RecordOf(After(s, run), id); r.Some? && r.value.start == RecordOf(s, id).value.start
    decreases |run|
  {
    hide Sound, RecordOf, Legal, Apply;
    if run != [] {
      SoundInductive(s, run[0]);
      RecordStep(s, run[0], id);
      NewIsNotListed(s);
      StartKept(Apply(s, run[0]), run[1..], id);
    }
  }

  lemma {:induction false} FitsAfter(s: State, run: seq<Action>, id: nat, ended: int, start: int)
    requires Sound(s) && LegalRun(s, run) && Fits(s, id, ended, start)
    requires RecordOf(After(s, run), id).Some? && Periodic(RecordOf(After(s, run), id).value.start)
    ensures Fits(After(s, run), id, ended + Stretches(s, run, id, start), LastStart(s, run, id, start))
    decreases |run|
  {
    hide Sound, RecordOf, Legal, Apply, Fits, Restarts, Stops;
    if run != [] {
      var a := run[0];
      SoundInductive(s, a);
      RecordStep(s, a, id);
      if RecordOf(Apply(s, a), id).Some? {
        StartKept(Apply(s, a), run[1..], id);
      }
      FitsStep(s, a, id, ended, start);
      FitsAfter(Apply(s, a), run[1..], id,
        ended + (if a.Tick? && Stops(s, id) then a.now - start else 0),
        if a.Tick? && Restarts(s, id) then a.now else start);
    }
  }

  /** A finished coroutine that gave up control only at the end of a period is credited with
      exactly the length of its stretches: from getting control, or from the stamp behind it,
      to the end of a period or its return. */
  lemma TimeIsStretches(t0: int, run: seq<Action>, c: Coro)
    requires LegalRun(Initial(t0), run)
    requires var s := After(Initial(t0), run); c in s.list || c in s.returned
    requires c.finished && Periodic(c.start)
    ensures c.timeTotal == Stretches(Initial(t0), run, c.id, 0)
  {
    hide After, LegalRun, Stretches, Sound;
    SoundInitially(t0);
    SoundAlways(Initial(t0), run);
    ListedRecord(After(Initial(t0), run), c);
    FitsAfter(Initial(t0), run, c.id, 0, 0);
  }

  // ---- the switches of the scheduler ----

  predicate BeginsRound(s: State, a: Action) {
    a.Tick? && s.at.Loop? && s.list != [] && AllOpen(s.list)
  }

  ghost function Rounds(s: State, run: seq<Action>): nat
    requires LegalRun(s, run)
    decreases |run|
  {
    if run == [] then 0 else (if BeginsRound(s, run[0]) then 1 else 0) + Rounds(Apply(s, run[0]), run[1..])
  }

  lemma RoundStep(s: State, a: Action)
    requires Legal(s, a)
    ensures Apply(s, a).schedSwitches == s.schedSwitches + if BeginsRound(s, a) then 1 else 0
  {
    FirstFinishedIs(s.list);
  }

  /** The scheduler counts one switch for every round it begins. */
  lemma {:induction false} SwitchesAreRounds(s: State, run: seq<Action>)
    requires LegalRun(s, run)
    ensures After(s, run).schedSwitches == s.schedSwitches + Rounds(s, run)
    decreases |run|
  {
    hide Apply, Legal;
    if run != [] {
      RoundStep(s, run[0]);
      SwitchesAreRounds(Apply(s, run[0]), run[1..]);
    }
  }
}
