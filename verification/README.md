# Verified models of the thread pool, the shell parser, UserFS and the coroutine scheduler

The repository holds four small stateful components in C. Each has a model here, and proofs of
the properties its callers rely on. The file names say which component a file belongs to.

**Thread pool** (`4/thread_pool.c`; `Pool*.dfy`). Pushers, workers, joiners, detachers and a
deleter as a machine whose steps are the critical sections, atomic accesses, waits and signals
of the C code, for any number of threads, tasks and callers. The queue is the stack the code
keeps. A condition variable behaves as POSIX says: waiting releases the mutex and blocks in one
step, wakeups may be spurious, a signal without a waiter is lost. `PoolModel` is the machine,
`PoolControl`, `PoolCounts` and `PoolTasks` the inductive invariants, `PoolTheorems` what they
mean. `PoolCalls` proves what each call returns, `PoolProgress` that queued work is run,
`PoolDeletion` when `thread_pool_delete` returns, and `PoolRuns` holds three runs that show
where the code breaks its promises.

**Shell lexer and parser** (`2/parser.c` and the read loop of `2/solution.c`; `Shell*.dfy`).
`ShellLexer` and `ShellParser` say what a token and a popped line are, as functions of the text;
a failed assert is a result of its own. `ShellSpelling` describes independently how words are
written (pieces, quotes, escapes, joined lines), and `ShellTokens` proves which characters are
read as which token. `ShellGrammar` says which token sequences are command lines and which are
ill-formed; `ShellSoundness` and `ShellAgreement` prove that the parser decides exactly this.
`ShellAborts` says which texts reach an assert, `ShellRecovery` how much text goes with an
error, `ShellPrint` prints lines, `ShellStream` is the feed-and-drain loop.
`ShellCode` is the code as it works, with the growing buffer, the token filled in place and the
linked list of expressions, and every method is tied to the functions above.

**UserFS** (`3/userfs.c`; `UserFs*.dfy`; open flags on, resize off). `UserFsModel` is a file
system of flat byte sequences with the file list in search order, ghosts, reference counts and
the descriptor array. `UserFsCalls` says what callers see of one call and of calls in a row,
`UserFsRuns` and `UserFsNames` prove what holds over all call sequences.
`UserFsFile` and `UserFsCode` are the blocks, the doubly linked file list and the growing
descriptor array on the heap; every call is proved to do to them what the flat model says, and
`UserFsSession` puts whole sessions together.

**Coroutines and merge sort** (`1/libcoro.c`, `1/solution.c`; `Coro*.dfy`, `Sort*.dfy`).
`CoroModel` is the scheduler as a machine: a coroutine is a finite program of yields, period
checks, creations and a return, and one step goes to the next reading of the clock. How a clock-driven quantum falls is part of the program, so
statements about all programs are statements about all clocks. `CoroTheorems`, `CoroFairness` and
`CoroFamily` hold the results, `CoroTime` the exact working times, `CoroCode` the linked list and the loop of `coro_sched_wait`.
`SortModel` and `SortTheorems` are the sort on values, `SortNumbers` what it means for the
comparator in use, `SortSuspend` its interleavings, `SortCode` the loops on arrays.

Where `hide` stands at the head of a proof, it only keeps definitions the proof does not need
away from the solver.

## Where the code differs from its documentation

- `thread_pool_delete` can wait for ever: the flag is set and the broadcast sent without the
  mutex (90-91), so a worker between its check (119) and its wait (120) misses both. Without
  spurious wakeups it returns if and only if no worker stands there (`DeleteReturnsIff`).
- A task that was joined before it is detached is never freed (331); any other detached task is
  freed exactly once.
- A worker signals a task's condition variable after it has given the task up (158-159), so the
  signal can come when the owner has already joined and deleted the task. No other position
  names a freed task.
- `file_find` (101-110) does not skip ghosts, so a ghost at the head of the file list hides a
  live file of the same name. The header's promise about deleting and creating again
  (`3/userfs.h`, 128-133) gives a new file in every case, but one that the name leads to only if
  the delete leaves no such head. A descriptor equal to the capacity of the array reads past its
  end (235, 283, 349); callers must not pass it.
- Deleting a file that does not exist returns 0 and sets no error (369), where the header
  (135-137) promises -1 and `UFS_ERR_NO_FILE`.
- A closing quote ends a word and `#` ends one, unlike in the POSIX shell. Some texts reach an
  assert, and these are all of them: joined lines with only a blank or a newline behind them
  where a token begins; an empty quoted word where a command, an argument or a file name is
  taken (not one that comes too late, nor one that is skipped); a line with a redirection, an `&`
  or both, but no command, that gets to its newline.
- A redirection whose file name is missing because the line ends takes the *next* line with it:
  the recovery skips through the next newline. Every other error takes exactly its own line.
- `int_gt_comparator` subtracts, so the program sorts numbers correctly exactly when their
  differences fit in 32 bits.

## Model

| member | source | states |
|---|---|---|
| PoolControl.ControlInductive | 4/thread_pool.c:107-335 | every step keeps mutual exclusion, what each thread may believe at its position, and that a delete excludes pushes |
| PoolCounts.CountsInductive | 4/thread_pool.c:116-190 | every step keeps: running counter = workers in the counted section, pushes = queued + held + run, idle workers plus owed signals cover the queued tasks |
| PoolTasks.TasksInductive | 4/thread_pool.c:137-335 | every step keeps each task in exactly one place, with the status, result and history that belong to it |
| PoolTheorems.InvAlways | 4/thread_pool.c:78-335 | all of this in every reachable state, any number of threads, tasks and callers |
| PoolTheorems.NoLostWakeup | 4/thread_pool.c:116-190 | a queued task always has an awake worker or a pusher that still owes its signal; a worker thread exists |
| PoolTheorems.WorkConserving | 4/thread_pool.c:116-135 | once signals are delivered and awake workers have looked, a task stays queued only if every worker is executing one |
| PoolTheorems.OnlyWaitersWait | 4/thread_pool.c:116-161 | a worker that cannot move sleeps, has exited, or waits for a mutex somebody holds |
| PoolTheorems.JoinerNotStranded | 4/thread_pool.c:224-244 | the task a sleeping joiner waits for is queued, at a worker, about to be signalled, or was already joined |
| PoolTheorems.ExactlyOnce | 4/thread_pool.c:128-181 | per task, pushes = occurrences in the queue + workers holding it + completed runs, and at most one push is outstanding |
| PoolTheorems.CountersMeanWhatTheySay | 4/thread_pool.c:128-187 | the in-progress counter counts the workers between lines 132 and 148, and running <= threads <= maximum |
| PoolTheorems.JoinReturnsLatest | 4/thread_pool.c:224-244 | a successful join returns what the latest push computed, after all pushes of the task have run |
| PoolTheorems.BoundedOvershoot | 4/thread_pool.c:174-180 | with at most n pushes under way at any time the queue never exceeds the maximum by more than n - 1 |
| PoolCalls.PushOutcome | 4/thread_pool.c:167-193 | whatever the others do, a push is refused if and only if the queue held 100000 tasks or more at its check, and else returns 0 |
| PoolCalls.PushAlone | 4/thread_pool.c:167-193 | a push into a queue with room, while nobody else moves: the task is the last in the queue, waiting, counted once more; if all workers run tasks and there may be more, one more is started; if one slept, one is awake |
| PoolCalls.JoinOutcome | 4/thread_pool.c:225-292 | a join is refused if and only if the task was never pushed, and else ends only by joining that task or, with a timeout, by timing out |
| PoolCalls.JoinAlone | 4/thread_pool.c:225-244 | joining a finished task while nobody else moves returns its result, marks it joined and changes nothing else |
| PoolCalls.DetachOutcome | 4/thread_pool.c:314-335 | a detach is refused if and only if the task was never pushed |
| PoolCalls.DropOutcome | 4/thread_pool.c:295-310 | deleting a task is refused if and only if it is queued, with a worker, or run and not joined; else it is freed |
| PoolCalls.DeleteRefused | 4/thread_pool.c:79-88 | deleting the pool is refused if a worker was running a task at the first read |
| PoolCalls.DeleteOutcome | 4/thread_pool.c:79-104 | past the first read it is refused if and only if the queue was not empty at the second |
| PoolCalls.StatusTells | 4/thread_pool.c:137-222 | the status is created, waiting or running exactly when the task was never pushed, is queued or just taken, or is being executed; finished means all pushes have run and the result is there |
| PoolCalls.NewPoolOutcome | 4/thread_pool.c:34-69 | a pool can be made for 1 to 20 threads and no other number, and starts no thread |
| PoolTheorems.DeleteIsQuiescent | 4/thread_pool.c:86-104 | when delete has returned 0 every thread has exited and every pushed task has run, although the counters are read one after the other |
| PoolTheorems.FreedAtMostOnce | 4/thread_pool.c:150-159 | no task is freed twice; a freed task is not queued, no call is about it, and the one worker position that can still name it is the signal of line 159 |
| PoolRuns.SignalAfterFreeIsReachable | 4/thread_pool.c:157-159 | a reachable state in which a worker is about to signal a task that its owner has joined and freed |
| PoolTheorems.DetachedIsFreedOnce | 4/thread_pool.c:314-335 | a detached task that is neither queued nor with a worker nor being freed by its owner has run to its end and has been freed once, by worker or detacher, if and only if it was not joined before the detach |
| PoolProgress.QueuedWorkRuns | 4/thread_pool.c:116-190 | while nobody pushes and no worker wakes spuriously the workers make a bounded number of steps, and when none of them can move every pushed task has been run |
| PoolProgress.DetachedIsFreedAtRest | 4/thread_pool.c:137-335 | when no worker can move, detached tasks have been freed, with or without a deletion of the pool |
| PoolDeletion.BroadcastHeard | 4/thread_pool.c:90-104 | if no worker stands between check and wait at the broadcast, none is ever asleep again, workers and deleter make a bounded number of steps, and one of them can move until delete has returned |
| PoolDeletion.BroadcastMissed | 4/thread_pool.c:90-95 | if one does, it stays in its wait unless it wakes spuriously, and delete never returns |
| PoolDeletion.DeleteReturnsIff | 4/thread_pool.c:86-104 | without spurious wakeups, delete returns in every run that goes on as long as workers or deleter can move, if and only if no worker stands there |
| PoolRuns.MissedBroadcastIsReachable | 4/thread_pool.c:119-120 | a reachable state in which the broadcast is missed |
| PoolRuns.DetachAfterJoinIsReachable | 4/thread_pool.c:331-334 | a reachable state in which a joined task is detached and never freed |
| ShellLexer.TokenBounds | 2/parser.c:138-285 | a token consumes at least one character, within the text; only words carry text |
| ShellLexer.TokenStable | 2/parser.c:138-285 | a token, or a failed assert, never changes when text is appended |
| ShellTokens.WordsAreSpellings | 2/parser.c:152-284 | the lexer reads a word exactly when a spelling of it (plain, escaped, joined, quoted pieces) stands there, and goes on right behind it |
| ShellTokens.OperatorsAreSigns | 2/parser.c:202-246 | the lexer reads an operator exactly when its sign stands behind the white space and joined lines, and goes on right behind it; a single sign needs another character behind it that differs |
| ShellTokens.NewLinesAre | 2/parser.c:143-276 | it reads a newline exactly when one stands behind the white space, or when behind white space and joined lines a comment begins, which the first newline ends |
| ShellTokens.TokenAbortsIff | 2/parser.c:143-260 | it fails an assert exactly when behind white space there are joined lines and then a blank or a newline |
| ShellParser.PopProgress | 2/parser.c:287-435 | a pop that returns a line or an error consumes a nonempty part of the buffer |
| ShellParser.PopStable | 2/parser.c:287-435 | a line, an error or a failed assert never changes when text is appended |
| ShellAgreement.ParsedIffWellFormed | 2/parser.c:297-408 | a line is returned if and only if the tokens are newlines, word+ (op word+)*, an optional redirection, an optional &, a newline; it is that line, and exactly those tokens are consumed |
| ShellAgreement.FailedIffViolation | 2/parser.c:320-426 | an error is returned if and only if the line is complete and its first violation is of that kind; consumed is exactly through the first newline token after the violation |
| ShellPrint.PrintThenPop | 2/parser.c:138-408 | a well-formed line printed with quoted words is popped as itself, consuming the printed text, whatever follows |
| ShellPrint.PopThenPrint | 2/parser.c:287-408 | whatever line is popped, printing and popping it again gives it back |
| ShellAborts.AbortedIffUnforeseen | 2/parser.c:287-435 | a pop fails an assert if and only if, after tokens that a line or its recovery can begin with, the lexer does, or an empty word comes where a word is taken, or a newline ends a redirection or & without a command |
| ShellAborts.EmptyWordAborts | 2/parser.c:33-42 | an empty quoted command, in either kind of quotes, reaches the assert on the size |
| ShellAborts.JoinedBlankAborts | 2/parser.c:247-260 | a joined line with no word before white space reaches an assert |
| ShellAborts.LoneAmpersandAborts | 2/parser.c:389-397 | a line that is only & reaches the assert on the tail |
| ShellAborts.LoneRedirectAborts | 2/parser.c:368-397 | so does a line that is only a redirection |
| ShellAborts.LateEmptyWordIsSkipped | 2/parser.c:396-426 | an empty word behind & is one argument too late and reaches no assert |
| ShellRecovery.ErrorTakesItsLineIff | 2/parser.c:375-426 | a pop that fails consumes exactly the newlines before the line and the line, if and only if it is not a redirection that misses its word because the line ends |
| ShellRecovery.RedirectTakesTheNextLine | 2/parser.c:375-426 | a text of two lines that one error consumes |
| ShellRecovery.PipeTakesItsLine | 2/parser.c:396-408 | an operator at the end of a line does not take the next line |
| ShellStream.DrainIff | 2/solution.c:217-227 | draining executes each popped line and reports each error, in order, each from where the last pop ended, until nothing complete is left or an assert fails, and does nothing else |
| ShellPrint.PrintThenDrain | 2/solution.c:217-227 | a script of printed lines is executed line by line, and nothing is left |
| ShellStream.DrainAppend | 2/solution.c:217-227 | text that arrives after a drain is handled as if it had been there from the start |
| ShellStream.StreamingIsBatch | 2/solution.c:214-228 | every way of cutting the input gives the same lines, errors, left-over text and failed assert |
| ShellCode.GrowBuf.Append | 2/parser.c:44-54 | the array grows to (capacity + 1) * 2 when full and holds the old contents and the new element |
| ShellCode.SkipComment | 2/parser.c:261-276 | the loop computes the comment's newline token |
| ShellCode.ReadOperator | 2/parser.c:202-246 | the operator and its one character of lookahead |
| ShellCode.EndWord | 2/parser.c:202-276 | what ends a word outside quotes, or is a token of its own, is handled as the lexer function says |
| ShellCode.ReadWord | 2/parser.c:152-284 | the switch loop with quotes and escapes computes the word the lexer function says |
| ShellCode.ReadToken | 2/parser.c:138-285 | parse_token computes ShellLexer.ParseToken, in the returned length and the token buffer |
| ShellCode.CommandLine.AppendNode | 2/parser.c:94-102 | appends to the linked list, head and tail kept right |
| ShellCode.ExprNode.AppendArg | 2/parser.c:62-73 | the array of arguments grows to (capacity + 1) * 2 when full and gains the word |
| ShellCode.CommandLine.AppendArg | 2/parser.c:303-306 | the word becomes the last argument of the last command, in place, and no other command changes |
| ShellCode.CommandLine.TakeToken | 2/parser.c:303-364 | the switch of the main loop: which tokens extend the list, and how, and which errors the others are |
| ShellCode.Parser.Feed | 2/parser.c:110-124 | the text is appended, and the capacity follows the growth rule |
| ShellCode.Parser.NextCapacity | 2/parser.c:113-119 | the capacity has room for the text; it stays if it had, and else more than doubles, to the formula or to just enough |
| ShellCode.Parser.Consume | 2/parser.c:126-136 | the prefix is removed in place |
| ShellCode.Parser.ReturnError | 2/parser.c:410-426 | consumes through the next newline token and reports, or leaves the buffer alone |
| ShellCode.Parser.CloseAndReturn | 2/parser.c:368-408 | redirection, ampersand, newline, as ShellParser.Close says |
| ShellCode.Parser.ReadBody | 2/parser.c:297-365 | the main loop reaches the verdict the parser function gives for the whole buffer |
| ShellCode.Parser.PopNext | 2/parser.c:287-435 | parser_pop_next computes ShellParser.PopNext: returned list, error, and remaining buffer |
| ShellCode.DrainLoop | 2/solution.c:217-227 | the inner loop ends, with the events and buffer of ShellStream.Drain, which DrainIff describes |
| ShellCode.ReadLoop | 2/solution.c:214-228 | the outer loop over any chunks has the outcome of the whole input at once |
| UserFsRuns.ReserveFinds | 3/userfs.c:75-99 | the lowest free slot is always found, although failed opens leave the counter raised |
| UserFsRuns.WellFormedInductive | 3/userfs.c:142-376 | every legal call keeps: refs = descriptors on the file, descriptors point at listed files, not behind their end, ghosts are open, occupied <= counter <= capacity |
| UserFsCalls.WriteOutcome | 3/userfs.c:234-255 | exactly when a write is refused, and with which error; else which bytes the file has, where the descriptor stands, and that nothing else changed |
| UserFsCalls.ReadOutcome | 3/userfs.c:282-317 | the same for a read: which bytes it returns, how far the descriptor moves, and that nothing else changed |
| UserFsCalls.ReadInPieces | 3/userfs.c:282-317 | reading two pieces one after the other is reading them at once |
| UserFsCalls.ReadsAddUp | 3/userfs.c:282-317 | reads of any sizes return the bytes of the file in order, without a gap |
| UserFsCalls.ReadToEndIsAll | 3/userfs.c:282-317 | reading until a read returns nothing yields everything from the descriptor on |
| UserFsCalls.OpenRefused | 3/userfs.c:142-160 | an open is refused exactly when there is no file to open and none is to be created, with its error, and then only the counter and the capacity have grown |
| UserFsCalls.OpenOutcome | 3/userfs.c:142-182 | else the lowest free slot has a descriptor at 0 of the file found or of a new empty one, with the rights asked for; nothing else changed |
| UserFsCalls.CloseOutcome | 3/userfs.c:348-364 | exactly when a close is refused; else the slot is free, the file counts one descriptor less, and is gone exactly if it was deleted and this was the last |
| UserFsCalls.DeleteOutcome | 3/userfs.c:366-376 | a delete returns 0; the file found is gone if nobody has it open, else marked; without one nothing changes |
| UserFsCalls.OpenedRights | 3/userfs.c:170-176 | a descriptor cannot be written exactly if opened for reading only, and not read exactly if opened for writing only |
| UserFsCalls.StoredIsLoaded | 3/userfs.c:142-364 | what is written to a new file is read back after it has been closed and opened again, unless a ghost hides its name |
| UserFsCalls.CapacityAlways | 3/userfs.c:75-90 | in every run the capacity of the descriptor array is 0 or a power of two |
| UserFsRuns.ReadSeesWrite | 3/userfs.c:234-317 | after a write any other descriptor of the file reads the new bytes where they went and the old ones elsewhere, up to the new end |
| UserFsRuns.WriteInPieces | 3/userfs.c:234-255 | writing two pieces one after the other is writing them at once |
| UserFsNames.WellFormedAlways | 3/userfs.c:142-376 | well-formedness after every legal run |
| UserFsNames.FreedExactlyWhen | 3/userfs.c:319-376 | a file leaves the list exactly at a delete that finds it closed or at the last close of a ghost |
| UserFsNames.FreedOnce | 3/userfs.c:319-376 | over any run each file is freed once if it is gone at the end and never otherwise |
| UserFsNames.FindMeansLive | 3/userfs.c:101-110 | the search gives the live file of the name, unless the head is a ghost of the name that hides it |
| UserFsNames.OpenActsOnLive | 3/userfs.c:142-182 | open acts on the live file of the name if and only if the name is not shadowed |
| UserFsNames.DeleteActsOnLive | 3/userfs.c:366-376 | the same for delete |
| UserFsNames.NameMapKept | 3/userfs.c:112-140 | one live file per name, before its ghosts other than the head: kept by a call if and only if it does not create a shadowed name |
| UserFsNames.NamesAlways | 3/userfs.c:101-376 | the name map over every run that creates no shadowed name |
| UserFsNames.NamesFromTheStart | 3/userfs.c:101-376 | the same from the empty file system, with what open and delete then do |
| UserFsNames.RecreateIsFresh | 3/userfs.h:127-139 | creating a name again after its delete gives a new empty file and changes no open file and no descriptor |
| UserFsNames.RecreateIsFoundIff | 3/userfs.h:127-139 | the name then means the new file if and only if no ghost of the name is the head after the delete, whether there was one before or the delete makes one |
| UserFsNames.ShadowingIsReachable | 3/userfs.c:149-160 | a run of three calls after which an existing file cannot be opened |
| UserFsFile.File.Seek | 3/userfs.c:195-205 | the division-based walk finds the block of a position |
| UserFsFile.File.AppendBlock | 3/userfs.c:208-219 | a fresh block behind the last one, links in both directions; the first block's back link stays unset |
| UserFsFile.File.WriteBlock | 3/userfs.c:221-224 | data inside one block overlays the flat content there |
| UserFsFile.File.Write | 3/userfs.c:193-232 | file_write overlays content[pos..pos+size], every block but the last full, none empty |
| UserFsFile.File.Walk | 3/userfs.c:297-302 | the subtraction-based walk finds the block and offset that the division of the position gives |
| UserFsFile.File.Read | 3/userfs.c:294-316 | reading copies content[pos..min(pos+size, length)] and leaves the rest of the buffer alone |
| UserFsCode.UserFs.GetFreeFd | 3/userfs.c:75-99 | the array grows by doubling and the scan finds the model's slot |
| UserFsCode.UserFs.FindFile | 3/userfs.c:101-110 | the walk over prev links finds what the model's search finds |
| UserFsCode.UserFs.LinkFile | 3/userfs.c:127-139 | a new file goes directly behind the head, all links right |
| UserFsCode.UserFs.UnlinkFile | 3/userfs.c:332-342 | a file leaves the list, the order of the others and both link directions kept |
| UserFsCode.UserFs.FileDelete | 3/userfs.c:319-346 | nothing while the file is open, else it is gone from list and model |
| UserFsCode.UserFs.Open | 3/userfs.c:142-182 | open does to list, files and descriptor array what the flat model says, errors included |
| UserFsCode.UserFs.Delete | 3/userfs.c:366-376 | the same for delete |
| UserFsCode.UserFs.Close | 3/userfs.c:348-364 | the same for close, with the last close of a ghost |
| UserFsCode.UserFs.Write | 3/userfs.c:234-255 | the same for write, with its three errors |
| UserFsCode.UserFs.Read | 3/userfs.c:282-317 | the same for read; the bytes land in the caller's buffer |
| UserFsSession.Session | 3/userfs.c:75-376 | every legal session of calls on the heap returns exactly what the flat model returns |
| CoroTheorems.SoundInductive | 1/libcoro.c:137-309 | every step keeps: coro_this_ptr names the running context, the waiting flag is up exactly while a coroutine runs, counters fit programs, no identity lost |
| CoroTheorems.NeverResumeTheDead | 1/libcoro.c:137-231 | in every run no finished coroutine gets control, the "no place to return" exit is not taken, at most one finished coroutine is listed and only while the scheduler is in control |
| CoroTheorems.EachReturnedOnce | 1/libcoro.c:169-184 | what is handed out has finished, with its result and one switch per yield, never twice; an empty list means all were handed out |
| CoroTheorems.TickBurns | 1/libcoro.c:137-184 | every step lowers the remaining work |
| CoroTheorems.EveryWaitEnds | 1/libcoro.c:169-184 | a wait takes a bounded number of steps and never gets stuck |
| CoroModel.PeriodEnd | 1/libcoro.c:38-57 | a call of yield_coro_period_end gives control up once if the period is over, else not |
| CoroFairness.ResumesDifferByFinishes | 1/libcoro.c:151-184 | whenever the scheduler has control, resume counts of unfinished coroutines differ by at most the number of finished ones |
| CoroFairness.TimesFitTheClock | 1/libcoro.c:38-57 | with a monotone clock, read as often as the code reads it, the counted times of all coroutines together never exceed the elapsed time |
| CoroTime.RecordStep | 1/libcoro.c:137-231 | a step of the machine is, for every single coroutine, what its program and the order of control say: born, resumed, acting, or nothing |
| CoroTime.TimeIsWorked | 1/libcoro.c:38-57 | in every run the time of every coroutine is exactly the sum, over the readings at which it tallies or returns, of the time since it last tallied, stamped or got control |
| CoroTime.TimeIsStretches | 1/libcoro.c:38-57 | a finished coroutine that yields only at the end of a period is credited with exactly the length of the stretches it ran |
| CoroTime.SwitchesAreRounds | 1/libcoro.c:137-181 | the scheduler counts one switch for every round it begins |
| CoroFamily.FamilyKept | 1/libcoro.c:169-309 | conservation: the reports already given, those of the running coroutines and those still to come are the same collection throughout |
| CoroFamily.CreateAndWait | 1/solution.c:259-278 | the loops of main end, and report every coroutine, created by main or by another, once with its result and switch count |
| CoroCode.Scheduler.ListAdd | 1/libcoro.c:80-89 | a new head, links right |
| CoroCode.Scheduler.ListDelete | 1/libcoro.c:91-102 | a coroutine leaves the list, links right, order kept |
| CoroCode.Scheduler.Yield | 1/libcoro.c:151-160 | control goes to the next unfinished coroutine or to the scheduler, as the machine says |
| CoroCode.Scheduler.Finish | 1/libcoro.c:215-231 | the end of a coroutine, with the flag up |
| CoroCode.Scheduler.RunThis | 1/libcoro.c:137-231 | what a running coroutine does next is the machine's step |
| CoroCode.Scheduler.SchedWait | 1/libcoro.c:169-184 | coro_sched_wait ends and is a run of the machine; it returns a finished coroutine with its record, or null exactly when the list is empty |
| SortModel.IntGtOrders | 1/solution.c:48-51 | the 32-bit difference orders two numbers correctly if and only if the difference fits in 32 bits |
| SortModel.IntGtIsOrder | 1/solution.c:48-51 | on numbers with such differences the comparator is a total preorder |
| SortTheorems.MergeSorted | 1/solution.c:65-101 | merging sorted runs gives a sorted run |
| SortTheorems.MergeClass | 1/solution.c:65-101 | ties keep their order, those of the left run first |
| SortTheorems.SortsStably | 1/solution.c:170-211 | mergesort gives a sorted permutation that keeps ties in order |
| SortTheorems.StableSortIsUnique | 1/solution.c:170-211 | there is only one such sequence |
| SortTheorems.MergeSortIsTheStableSort | 1/solution.c:170-211 | a sequence is sorted and a stable permutation if and only if it is the result of mergesort |
| SortTheorems.MergedFilesAreTheSort | 1/solution.c:280-293 | folding merge over the sorted files is the stable sort of all files together |
| SortNumbers.WrittenIsPermutation | 1/solution.c:280-293 | what main writes is a permutation of all inputs, whatever the comparator says |
| SortNumbers.MainSortsIff | 1/solution.c:280-293 | for numbers from a set, main always writes all inputs in ascending order if and only if the differences of these numbers fit in 32 bits |
| SortNumbers.WrongOrder | 1/solution.c:48-51 | two numbers main writes in the wrong order |
| SortSuspend.StepKeepsOutcome | 1/solution.c:170-211 | cutting the recursion at its suspension points does not change what it computes |
| SortSuspend.SuspensionDoesNotMatter | 1/solution.c:170-293 | under every interleaving each array ends as the stable sort of its file, and the fold as the sort of all |
| SortSuspend.EveryScheduleEnds | 1/solution.c:170-211 | every interleaving ends, and all complete ones have the same length |
| SortSuspend.DoneAfterSteps | 1/solution.c:170-233 | a schedule has sorted all files exactly when it has 5 n - 3 turns for every file of n > 0 numbers, and 2 for an empty one |
| SortCode.CopyRun | 1/solution.c:53-63 | copies exactly the given cells |
| SortCode.MergeRuns | 1/solution.c:65-101 | the three loops compute the merge of the two runs |
| SortCode.Sort | 1/solution.c:170-211 | the segment is sorted in place and the rest of the array untouched, whatever the others do to their arrays while this coroutine is suspended |
| SortCode.MergeFiles | 1/solution.c:280-293 | the fold of main over the files' arrays |

## Left out

- PoolTheorems.DeleteIsQuiescent: does not say that delete returns; DeleteReturnsIff says when.
- PoolProgress.QueuedWorkRuns: every task function returns; how long it takes is not modelled.
- PoolTheorems.JoinReturnsLatest: task functions return arbitrary values; callers follow the documentation (one owner per task, pushed only when created or joined, no push during a delete), and thread creation and allocation succeed.
- PoolTasks.TasksInductive: each section under a task's mutex is one step, and the signal of line 159 acts on the task's identity; memory freed between the unlock and the signal is not modelled.
- PoolControl.ControlInductive: the invalid-argument checks and pthread error codes are not part of the machine. thread_task_timed_join is a join that may time out whenever it waits; its clock arithmetic is not modelled, and it takes the result and marks the task in two steps, as thread_task_join does, not in one.
- ShellCode.Parser.Feed: requires that the 32-bit sizes do not wrap; the formula is the code's.
- ShellCode.ReadLoop: requires the same of the whole input.
- ShellPrint.PrintThenPop: a character is one value of `char`; bytes and encodings are not distinguished.
- execute_command_line and the rest of 2/solution.c: processes, pipes and files of the operating system.
- UserFsCode.UserFs.FileDelete: the blocks of a freed file are no longer reachable; giving memory back is not modelled.
- UserFsCode.UserFs.Write: sizes fit in `int`, allocation succeeds, and the descriptor is not equal to the capacity.
- UserFsCode.UserFs.Read: the descriptor is not equal to the capacity, where the code reads past the array.
- UserFsCode.UserFs.Close: likewise.
- ufs_resize is compiled out; ufs_destroy and the unused file_read and last_block are not modelled.
- CoroCode.Scheduler.New: stands for coro_new without its signal stack and saved contexts; a coroutine's saved context is the rest of its program.
- CoroCode.Scheduler.Yield: coro_yield called by the main program outside a coroutine is not part of the machine.
- CoroModel.PeriodEnd: whether the period is over is part of the program; left_timeperiod, which decides it, is not modelled.
- CoroFairness.ResumesDifferByFinishes: all coroutines are created before the first wait, since one created later starts with no resumes.
- SortModel.IntGtOrders: the subtraction wraps around, as the usual compilation does; in C its overflow is undefined.
- SortCode.Sort: a failed allocation of the buffer and the return value -1 are not modelled; reading and writing files is not either.
- utils/heap_help, the repository's own scripts and examples.
- Nothing was executed.
