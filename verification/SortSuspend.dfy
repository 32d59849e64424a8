/** The sorting coroutines of 1/solution.c, cut at the points where they may be suspended: any
    interleaving gives what uninterrupted sorting gives. */
module SortSuspend {
  import opened SortModel
  import opened SortTheorems

  /** What a coroutine still has to do: sort a segment, call yield_coro_period_end, merge the two
      halves of a segment. */
  datatype Task = SortTask(lo: nat, n: nat) | PauseTask | MergeTask(lo: nat, n: nat)

  /** One coroutine: its own array (cells), and the rest of its work (the recursion's call stack). */
  datatype Job<T> = Job(cells: seq<T>, todo: seq<Task>)

  /** A segment replaced by another of the same length. */
  function Splice<T>(cells: seq<T>, lo: nat, segment: seq<T>): (r: seq<T>)
    requires lo + |segment| <= |cells|
    ensures |r| == |cells|
  {
    cells[..lo] + segment + cells[lo + |segment|..]
  }

  predicate TaskFits(t: Task, length: nat) {
    t.PauseTask? || t.lo + t.n <= length
  }

  predicate JobFits<T>(job: Job<T>) {
    forall i :: 0 <= i < |job.todo| ==> TaskFits(job.todo[i], |job.cells|)
  }

  /** Lines 182-207, up to the next piece of work: a longer segment is split, with a possible
      suspension after each half. */
  function Step<T>(job: Job<T>, cmp: (T, T) -> int): (r: Job<T>)
    requires job.todo != [] && JobFits(job)
    ensures JobFits(r) && |r.cells| == |job.cells|
  {
    var rest := job.todo[1..];
    assert TaskFits(job.todo[0], |job.cells|);
    match job.todo[0]
    case PauseTask => job.(todo := rest)
    case SortTask(lo, n) =>
      if n <= 1 then job.(todo := rest)
      else
        var m := n / 2;
        job.(todo := [SortTask(lo, m), PauseTask, SortTask(lo + m, n - m), PauseTask, MergeTask(lo, n)] + rest)
    case MergeTask(lo, n) =>
      var m := n / 2;
      job.(cells := Splice(job.cells, lo, Merge(job.cells[lo..lo + m], job.cells[lo + m..lo + n], cmp)), todo := rest)
  }

  /** What a task does when nothing interrupts it. */
  function Exec<T>(cells: seq<T>, task: Task, cmp: (T, T) -> int): (r: seq<T>)
    requires TaskFits(task, |cells|)
    ensures |r| == |cells|
  {
    match task
    case PauseTask => cells
    case SortTask(lo, n) => Splice(cells, lo, MergeSort(cells[lo..lo + n], cmp))
    case MergeTask(lo, n) =>
      var m := n / 2;
      Splice(cells, lo, Merge(cells[lo..lo + m], cells[lo + m..lo + n], cmp))
  }

  /** What the job ends with. */
  function Outcome<T>(job: Job<T>, cmp: (T, T) -> int): (r: seq<T>)
    requires JobFits(job)
    ensures |r| == |job.cells|
    decreases |job.todo|
  {
    if job.todo == [] then job.cells
    else
      assert TaskFits(job.todo[0], |job.cells|);
      Outcome(Job(Exec(job.cells, job.todo[0], cmp), job.todo[1..]), cmp)
  }

  lemma SpliceParts<T>(before: seq<T>, x: seq<T>, y: seq<T>, behind: seq<T>)
    requires |x| == |y|
    ensures Splice(before + x + behind, |before|, y) == before + y + behind
    ensures (before + x + behind)[|before|..|before| + |x|] == x
  {
  }

  lemma ExecSort<T>(before: seq<T>, x: seq<T>, behind: seq<T>, cmp: (T, T) -> int)
    ensures Exec(before + x + behind, SortTask(|before|, |x|), cmp) == before + MergeSort(x, cmp) + behind
  {
    hide Splice, MergeSort;
    SpliceParts(before, x, MergeSort(x, cmp), behind);
  }

  lemma Halves<T>(before: seq<T>, x: seq<T>, y: seq<T>, behind: seq<T>)
    ensures var whole := before + (x + y) + behind;
      && whole[|before|..|before| + |x|] == x
      && whole[|before| + |x|..|before| + (|x| + |y|)] == y
  {
  }

  lemma ExecMergeOf<T>(whole: seq<T>, lo: nat, n: nat, x: seq<T>, y: seq<T>, cmp: (T, T) -> int)
    requires lo + n <= |whole| && whole[lo..lo + n / 2] == x && whole[lo + n / 2..lo + n] == y
    ensures |x| + |y| == n && Exec(whole, MergeTask(lo, n), cmp) == Splice(whole, lo, Merge(x, y, cmp))
  {
    hide Splice, Merge;
  }

  lemma ExecMerge<T>(before: seq<T>, x: seq<T>, y: seq<T>, behind: seq<T>, cmp: (T, T) -> int)
    requires |x| == (|x| + |y|) / 2
    ensures Exec(before + (x + y) + behind, MergeTask(|before|, |x| + |y|), cmp) == before + Merge(x, y, cmp) + behind
  {
    hide Splice, Merge, Exec;
    Halves(before, x, y, behind);
    ExecMergeOf(before + (x + y) + behind, |before|, |x| + |y|, x, y, cmp);
    SpliceParts(before, x + y, Merge(x, y, cmp), behind);
  }

  /** Sorting a segment is sorting its halves and merging them. */
  lemma SplitSort<T>(cells: seq<T>, lo: nat, n: nat, cmp: (T, T) -> int)
    requires lo + n <= |cells| && n > 1
    ensures var m := n / 2;
      var a1 := Exec(cells, SortTask(lo, m), cmp);
      var a2 := Exec(a1, SortTask(lo + m, n - m), cmp);
      Exec(a2, MergeTask(lo, n), cmp) == Exec(cells, SortTask(lo, n), cmp)
  {
    hide Exec, MergeSort, Merge;
    var m := n / 2;
    var before, x, y, behind := cells[..lo], cells[lo..lo + m], cells[lo + m..lo + n], cells[lo + n..];
    var l, r := MergeSort(x, cmp), MergeSort(y, cmp);
    assert cells == before + x + (y + behind) == before + (x + y) + behind;
    ExecSort(before, x, y + behind, cmp);
    assert before + l + (y + behind) == (before + l) + y + behind;
    ExecSort(before + l, y, behind, cmp);
    assert (before + l) + r + behind == before + (l + r) + behind;
    ExecMerge(before, l, r, behind, cmp);
    ExecSort(before, x + y, behind, cmp);
    MergeSortSplits(x, y, cmp);
  }

  lemma MergeSortSplits<T>(x: seq<T>, y: seq<T>, cmp: (T, T) -> int)
    requires |x| == (|x| + |y|) / 2 && |x| + |y| > 1
    ensures MergeSort(x + y, cmp) == Merge(MergeSort(x, cmp), MergeSort(y, cmp), cmp)
  {
    assert (x + y)[..|x|] == x && (x + y)[|x|..] == y;
  }

  lemma OutcomeCons<T>(cells: seq<T>, task: Task, rest: seq<Task>, cmp: (T, T) -> int)
    requires TaskFits(task, |cells|) && JobFits(Job(cells, rest))
    ensures JobFits(Job(cells, [task] + rest)) && JobFits(Job(Exec(cells, task, cmp), rest))
    ensures Outcome(Job(cells, [task] + rest), cmp) == Outcome(Job(Exec(cells, task, cmp), rest), cmp)
  {
    hide Exec;
    assert ([task] + rest)[1..] == rest;
  }

  /** A step does not change what the job ends with. */
  lemma StepKeepsOutcome<T>(job: Job<T>, cmp: (T, T) -> int)
    requires job.todo != [] && JobFits(job)
    ensures Outcome(Step(job, cmp), cmp) == Outcome(job, cmp)
  {
    hide Outcome, Exec, Step;
    var cells, task, rest := job.cells, job.todo[0], job.todo[1..];
    assert job.todo == [task] + rest;
    assert TaskFits(task, |cells|);
    assert JobFits(Job(cells, rest));
    OutcomeCons(cells, task, rest, cmp);
    if !task.SortTask? {
      StepExecutes(job, cmp);
    } else if task.n <= 1 {
      SortNothing(cells, task.lo, task.n, cmp);
      StepSkips(job, cmp);
    } else {
      SplitSort(cells, task.lo, task.n, cmp);
      var a1 := Exec(cells, SortTask(task.lo, task.n / 2), cmp);
      var a2 := Exec(a1, SortTask(task.lo + task.n / 2, task.n - task.n / 2), cmp);
      SplitOutcome(cells, a1, a2, task.lo, task.n, rest, cmp);
      StepSplits(job, cmp);
    }
  }

  lemma StepExecutes<T>(job: Job<T>, cmp: (T, T) -> int)
    requires job.todo != [] && JobFits(job) && !job.todo[0].SortTask?
    ensures TaskFits(job.todo[0], |job.cells|)
    ensures Step(job, cmp) == Job(Exec(job.cells, job.todo[0], cmp), job.todo[1..])
  {
  }

  lemma StepSkips<T>(job: Job<T>, cmp: (T, T) -> int)
    requires job.todo != [] && JobFits(job) && job.todo[0].SortTask? && job.todo[0].n <= 1
    ensures Step(job, cmp) == Job(job.cells, job.todo[1..])
  {
  }

  lemma StepSplits<T>(job: Job<T>, cmp: (T, T) -> int)
    requires job.todo != [] && JobFits(job) && job.todo[0].SortTask? && job.todo[0].n > 1
    ensures var lo, n := job.todo[0].lo, job.todo[0].n;
      Step(job, cmp) == Job(job.cells,
        [SortTask(lo, n / 2), PauseTask, SortTask(lo + n / 2, n - n / 2), PauseTask, MergeTask(lo, n)] + job.todo[1..])
  {
  }

  lemma SortNothing<T>(cells: seq<T>, lo: nat, n: nat, cmp: (T, T) -> int)
    requires lo + n <= |cells| && n <= 1
    ensures Exec(cells, SortTask(lo, n), cmp) == cells
  {
  }

  lemma Nested(a: Task, b: Task, c: Task, d: Task, e: Task, rest: seq<Task>)
    ensures [a, b, c, d, e] + rest == [a] + ([b] + ([c] + ([d] + ([e] + rest))))
  {
  }

  lemma SplitOutcome<T>(cells: seq<T>, a1: seq<T>, a2: seq<T>, lo: nat, n: nat, rest: seq<Task>, cmp: (T, T) -> int)
    requires lo + n <= |cells| == |a1| == |a2| && n > 1 && JobFits(Job(cells, rest))
    requires a1 == Exec(cells, SortTask(lo, n / 2), cmp) && a2 == Exec(a1, SortTask(lo + n / 2, n - n / 2), cmp)
    ensures var todo := [SortTask(lo, n / 2), PauseTask, SortTask(lo + n / 2, n - n / 2), PauseTask,
        MergeTask(lo, n)] + rest;
      JobFits(Job(cells, todo)) && JobFits(Job(Exec(a2, MergeTask(lo, n), cmp), rest)) &&
      Outcome(Job(cells, todo), cmp) == Outcome(Job(Exec(a2, MergeTask(lo, n), cmp), rest), cmp)
  {
    hide Outcome, Splice, Merge, MergeSort;
    var t0, t2, t4 := SortTask(lo, n / 2), SortTask(lo + n / 2, n - n / 2), MergeTask(lo, n);
    var w4 := [t4] + rest;
    var w3 := [PauseTask] + w4;
    var w2 := [t2] + w3;
    var w1 := [PauseTask] + w2;
    OutcomeCons(a2, t4, rest, cmp);
    OutcomeCons(a2, PauseTask, w4, cmp);
    OutcomeCons(a1, t2, w3, cmp);
    OutcomeCons(a1, PauseTask, w2, cmp);
    OutcomeCons(cells, t0, w1, cmp);
    Nested(t0, PauseTask, t2, PauseTask, t4, rest);
  }

  // ---- all coroutines together ----

  ghost predicate AllFit<T(!new)>(jobs: seq<Job<T>>) {
    forall i :: 0 <= i < |jobs| ==> JobFits(jobs[i])
  }

  /** An interleaving: whose turn it is, again and again. */
  ghost predicate LegalSchedule<T(!new)>(jobs: seq<Job<T>>, schedule: seq<nat>, cmp: (T, T) -> int)
    decreases |schedule|
  {
    schedule != [] ==>
      && AllFit(jobs) && schedule[0] < |jobs| && jobs[schedule[0]].todo != []
      && LegalSchedule(jobs[schedule[0] := Step(jobs[schedule[0]], cmp)], schedule[1..], cmp)
  }

  ghost function After<T(!new)>(jobs: seq<Job<T>>, schedule: seq<nat>, cmp: (T, T) -> int): seq<Job<T>>
    requires LegalSchedule(jobs, schedule, cmp)
    decreases |schedule|
  {
    if schedule == [] then jobs
    else After(jobs[schedule[0] := Step(jobs[schedule[0]], cmp)], schedule[1..], cmp)
  }

  /** What every job ends with does not depend on the interleaving so far. */
  lemma {:induction false} OutcomesKept<T(!new)>(jobs: seq<Job<T>>, schedule: seq<nat>, cmp: (T, T) -> int)
    requires AllFit(jobs) && LegalSchedule(jobs, schedule, cmp)
    ensures |After(jobs, schedule, cmp)| == |jobs| && AllFit(After(jobs, schedule, cmp))
    ensures forall i :: 0 <= i < |jobs| ==> Outcome(After(jobs, schedule, cmp)[i], cmp) == Outcome(jobs[i], cmp)
    decreases |schedule|
  {
    if schedule != [] {
      var k := schedule[0];
      StepKeepsOutcome(jobs[k], cmp);
      OutcomesKept(jobs[k := Step(jobs[k], cmp)], schedule[1..], cmp);
    }
  }

  /** coroutine_func_f after reading its file (229-230): a possible suspension, then the sort. */
  function Start<T>(input: seq<T>): (r: Job<T>)
    ensures JobFits(r)
  {
    Job(input, [PauseTask, SortTask(0, |input|)])
  }

  function StartAll<T>(inputs: seq<seq<T>>): (r: seq<Job<T>>)
    ensures |r| == |inputs|
  {
    seq(|inputs|, i requires 0 <= i < |inputs| => Start(inputs[i]))
  }

  lemma StartOutcome<T>(input: seq<T>, cmp: (T, T) -> int)
    ensures Outcome(Start(input), cmp) == MergeSort(input, cmp)
  {
    var job := Job(input, [SortTask(0, |input|)]);
    assert [PauseTask, SortTask(0, |input|)][1..] == [SortTask(0, |input|)];
    assert [SortTask(0, |input|)][1..] == [];
    assert input[0..|input|] == input;
    assert Outcome(Start(input), cmp) == Outcome(job, cmp);
  }

  ghost predicate AllDone<T(!new)>(jobs: seq<Job<T>>) {
    forall i :: 0 <= i < |jobs| ==> jobs[i].todo == []
  }

  /** Suspension independence: whenever all coroutines are done, each array is the stable sort of
      its file, as if nothing had interrupted it; and merging the arrays in file order gives the
      stable sort of all files together. */
  lemma SuspensionDoesNotMatter<T(!new)>(inputs: seq<seq<T>>, schedule: seq<nat>, cmp: (T, T) -> int, xs: set<T>)
    requires LegalSchedule(StartAll(inputs), schedule, cmp) && AllDone(After(StartAll(inputs), schedule, cmp))
    requires Orders(cmp, xs) && Elements(Concat(inputs)) <= xs
    ensures var jobs := After(StartAll(inputs), schedule, cmp);
      && |jobs| == |inputs|
      && (forall i :: 0 <= i < |inputs| ==> jobs[i].cells == MergeSort(inputs[i], cmp))
      && MergeAll(seq(|jobs|, i requires 0 <= i < |jobs| => jobs[i].cells), cmp) == MergeSort(Concat(inputs), cmp)
  {
    OutcomesKept(StartAll(inputs), schedule, cmp);
    var jobs := After(StartAll(inputs), schedule, cmp);
    forall i | 0 <= i < |inputs| ensures jobs[i].cells == MergeSort(inputs[i], cmp) {
      StartOutcome(inputs[i], cmp);
      assert jobs[i].todo == [];
    }
    assert seq(|jobs|, i requires 0 <= i < |jobs| => jobs[i].cells) == SortEach(inputs, cmp);
    MergedFilesAreTheSort(inputs, cmp, xs);
  }

  // ---- every interleaving ends ----

  /** Steps to sort a segment of n elements. */
  function SortCost(n: nat): nat {
    if n <= 1 then 1 else 4 + SortCost(n / 2) + SortCost(n - n / 2)
  }

  function Cost(todo: seq<Task>): nat {
    if todo == [] then 0
    else Cost(todo[1..]) + if todo[0].SortTask? then SortCost(todo[0].n) else 1
  }

  function TotalCost<T>(jobs: seq<Job<T>>): nat {
    if jobs == [] then 0 else Cost(jobs[0].todo) + TotalCost(jobs[1..])
  }

  lemma CostCons(t: Task, rest: seq<Task>)
    ensures Cost([t] + rest) == Cost(rest) + if t.SortTask? then SortCost(t.n) else 1
  {
    assert ([t] + rest)[1..] == rest;
  }

  lemma SplitSortCost(n: nat)
    requires n > 1
    ensures SortCost(n) == 4 + SortCost(n / 2) + SortCost(n - n / 2)
  {
  }

  lemma SplitCost(lo: nat, n: nat, rest: seq<Task>)
    requires n > 1
    ensures Cost([SortTask(lo, n / 2), PauseTask, SortTask(lo + n / 2, n - n / 2), PauseTask, MergeTask(lo,
        n)] + rest) ==
      SortCost(n) - 1 + Cost(rest)
  {
    hide Cost, SortCost;
    var t0, t2, t4 := SortTask(lo, n / 2), SortTask(lo + n / 2, n - n / 2), MergeTask(lo, n);
    var w4 := [t4] + rest;
    var w3 := [PauseTask] + w4;
    var w2 := [t2] + w3;
    var w1 := [PauseTask] + w2;
    CostCons(t4, rest);
    CostCons(PauseTask, w4);
    CostCons(t2, w3);
    CostCons(PauseTask, w2);
    CostCons(t0, w1);
    SplitSortCost(n);
    Nested(t0, PauseTask, t2, PauseTask, t4, rest);
  }

  lemma SmallCost(n: nat)
    requires n <= 1
    ensures SortCost(n) == 1
  {
  }

  lemma StepCost<T>(job: Job<T>, cmp: (T, T) -> int)
    requires job.todo != [] && JobFits(job)
    ensures Cost(Step(job, cmp).todo) == Cost(job.todo) - 1
  {
    hide Step, Exec, Cost, SortCost, JobFits, TaskFits;
    var task, rest := job.todo[0], job.todo[1..];
    assert job.todo == [task] + rest;
    CostCons(task, rest);
    if !task.SortTask? {
      StepExecutes(job, cmp);
    } else if task.n <= 1 {
      StepSkips(job, cmp);
      SmallCost(task.n);
    } else {
      StepSplits(job, cmp);
      SplitCost(task.lo, task.n, rest);
    }
  }

  lemma {:induction false} TotalUpdate<T>(jobs: seq<Job<T>>, k: nat, job: Job<T>)
    requires k < |jobs|
    ensures TotalCost(jobs[k := job]) == TotalCost(jobs) - Cost(jobs[k].todo) + Cost(job.todo)
  {
    if k == 0 {
      assert jobs[0 := job][1..] == jobs[1..];
    } else {
      assert jobs[k := job][1..] == jobs[1..][k - 1 := job];
      TotalUpdate(jobs[1..], k - 1, job);
    }
  }

  /** However the turns fall, the same number of steps is left: every interleaving ends, and all
      complete ones are equally long. */
  lemma {:induction false} EveryScheduleEnds<T(!new)>(jobs: seq<Job<T>>, schedule: seq<nat>, cmp: (T, T) -> int)
    requires AllFit(jobs) && LegalSchedule(jobs, schedule, cmp)
    ensures TotalCost(After(jobs, schedule, cmp)) == TotalCost(jobs) - |schedule|
    decreases |schedule|
  {
    if schedule != [] {
      var k := schedule[0];
      StepCost(jobs[k], cmp);
      TotalUpdate(jobs, k, Step(jobs[k], cmp));
      EveryScheduleEnds(jobs[k := Step(jobs[k], cmp)], schedule[1..], cmp);
    }
  }

  // ---- how many steps, and how many possible suspensions ----

  lemma {:induction false} SortCostIs(n: nat)
    ensures SortCost(n) == if n == 0 then 1 else 5 * n - 4
    decreases n
  {
    hide SortCost;
    if n > 1 {
      SplitSortCost(n);
      SortCostIs(n / 2);
      SortCostIs(n - n / 2);
    } else {
      SmallCost(n);
    }
  }

  /** The steps of all coroutines: for a file of n > 0 numbers there are n trivial sorts, n - 1
      splits and as many merges, and 2 n - 1 calls of yield_coro_period_end. */
  function FileSteps<T>(inputs: seq<seq<T>>): nat {
    if inputs == [] then 0
    else (if inputs[0] == [] then 2 else 5 * |inputs[0]| - 3) + FileSteps(inputs[1..])
  }

  lemma {:induction false} StartCost<T>(inputs: seq<seq<T>>)
    ensures TotalCost(StartAll(inputs)) == FileSteps(inputs)
    decreases |inputs|
  {
    if inputs != [] {
      var n := |inputs[0]|;
      StartCost(inputs[1..]);
      assert StartAll(inputs)[1..] == StartAll(inputs[1..]);
      assert [PauseTask, SortTask(0, n)] == [PauseTask] + ([SortTask(0, n)] + []);
      CostCons(SortTask(0, n), []);
      CostCons(PauseTask, [SortTask(0, n)] + []);
      SortCostIs(n);
    }
  }

  lemma {:induction false} DoneCostsNothing<T(!new)>(jobs: seq<Job<T>>)
    requires AllDone(jobs)
    ensures TotalCost(jobs) == 0
  {
    if jobs != [] {
      DoneCostsNothing(jobs[1..]);
    }
  }

  lemma {:induction false} CostsNothingWhenDone<T(!new)>(jobs: seq<Job<T>>)
    requires TotalCost(jobs) == 0
    ensures AllDone(jobs)
  {
    if jobs != [] {
      CostsNothingWhenDone(jobs[1..]);
      assert forall i :: 1 <= i < |jobs| ==> jobs[i] == jobs[1..][i - 1];
    }
  }

  /** A schedule has sorted everything exactly when it has this many steps. */
  lemma DoneAfterSteps<T(!new)>(inputs: seq<seq<T>>, schedule: seq<nat>, cmp: (T, T) -> int)
    requires LegalSchedule(StartAll(inputs), schedule, cmp)
    ensures AllDone(After(StartAll(inputs), schedule, cmp)) <==> |schedule| == FileSteps(inputs)
  {
    EveryScheduleEnds(StartAll(inputs), schedule, cmp);
    StartCost(inputs);
    var jobs := After(StartAll(inputs), schedule, cmp);
    if AllDone(jobs) {
      DoneCostsNothing(jobs);
    }
    if TotalCost(jobs) == 0 {
      CostsNothingWhenDone(jobs);
    }
  }
}
