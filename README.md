# Trace-driven fork/exec simulator: a Dafny model of `simulate_trace`

This project models the core of a single-CPU operating-system simulator: the recursive
interpreter `simulate_trace` in `interrupts.cpp`. It walks a script of trace events with an
explicit cursor. It advances a virtual clock and appends to an execution log and a status log.
It writes the process-wide partition table in place. It re-enters itself once for every FORK
that gets a partition, to run the child's sub-trace, and once for every EXEC that loads its
program, to run the new program's trace.

Modules, one per component of the interpreter:

- `SimTypes` (`sim_types.dfy`): decoded trace events, the process control block (PCB), and the
  structured logs. An execution line is a timed step `time, duration, what` or an error
  `time, what`. A status snapshot is a list of table rows. `Chained` relates a log to the clock:
  every line is stamped with the clock at the moment it is written, and each step advances the
  clock by its own duration. `Env` gathers the routines the interpreter calls but whose bodies
  are not part of this model (see "Left out"). They are function values. `Env.Valid` is what
  the interpreter needs of them. `Env.Clocked` (clock-consistent logs) and `Env.Forward` (the
  clock never goes back) are hypotheses of the results that depend on them.
- `Pids` (`pids.dfy`): the FORK child's PID, one more than the largest visible PID.
- `ChildSplit` (`child_split.dfy`): the FORK split scan, a `skip`/`exec_flag` state machine.
  It produces the child's sub-trace and the line where the parent resumes.
- `WaitQueue` (`wait_queue.dfy`): the EXEC queue filter and the rows of a status table.
- `Cursor` (`cursor.dfy`): where the main loop's cursor goes after each line, and the lines a
  walk visits. It also holds the as-written cursor of the finding below.
- `Semantics` (`semantics.dfy`): what the interpreter computes, as functions. `Walk` is a walk
  from a line, `Interpret` is one line, and `Fork`, `ChildRun`, `Exec`, `Load` and `Image` are
  the FORK and EXEC branches with their recursive runs. Each returns the execution log, the
  status snapshots, the final clock and the final partition table.
- `Engine` (`engine.dfy`): the interpreter. `memory` is an `array<string>` of partition
  occupant tags, and the event handlers write it in place. The FORK and EXEC recursions are
  mutually recursive methods. Each method is proved to return, and leave in `memory`, exactly
  the outcome of the matching `Semantics` function. A FORK recursion ends because the child's
  sub-trace is strictly shorter than the parent's trace. An EXEC recursion ends because it
  spends one unit of `fuel`.

Design choices and facts about the code:

- Every waiting PID is smaller than the running process's PID (`Pids.Senior`). Each FORK step
  keeps this true for the child and its queue (`Pids.ForkKeepsSenior`), and each EXEC step for
  the new image and its pruned queue (`WaitQueue.ExecKeepsSenior`). Whenever it holds, the EXEC
  filter `pcb.PID != current.PID` removes nothing (`WaitQueue.WithoutJuniorIsIdentity`). The
  model still runs the filter loop as the code does.
- EXEC charges its declared duration only when the program is known and a partition is found
  (interrupts.cpp:162-172). Both error paths log one line and charge nothing more.
- A successful EXEC frees the process's old partition before the new image runs
  (interrupts.cpp:185). When that process is a forked child, its FORK parent frees the same
  entry again once the child returns (interrupts.cpp:147).
- A successful EXEC also frees the new image's partition once the image's trace returns
  (interrupts.cpp:241).
- The partition search is given the partition table. In the code `memory` is a global, so the
  search, whose body is not part of this model, can read it.

## Model

| member | source | states |
|---|---|---|
| `SimTypes.ChainedElapsed` | interrupts.cpp:170-190 | a clock-consistent log ends at its start time plus the sum of the durations it logs |
| `SimTypes.ChainedAppend` | interrupts.cpp:142-145 | folding a recursive call's log and clock into the caller's keeps the log consistent with the clock |
| `SimTypes.ChainedStep` | interrupts.cpp:61-67 | logging `time, d, text` at the current clock and then adding `d` keeps the log consistent, and appends exactly that step |
| `SimTypes.ChainedFailure` | interrupts.cpp:54-55 | an error line stamped with the current clock keeps the log consistent and does not move the clock |
| `SimTypes.ChainedMonotone` | interrupts.cpp:28-36 | if no logged duration is negative, the clock never goes backwards |
| `Pids.NextPid` | interrupts.cpp:46-50 | the accumulator loop returns `FreshPid`, which is at least 1 and above the running PID and every waiting PID |
| `Pids.FreshPidIsFresh` | interrupts.cpp:46-50 | the child PID is at least 1 and strictly greater than the PID of `current` and of every PCB in the wait queue |
| `Pids.FreshPidIsLeast` | interrupts.cpp:46-50 | every value with those properties is at least the child PID, so it is max+1 |
| `Pids.FreshPidOrderIndependent` | interrupts.cpp:46-50 | two queues holding the same PCBs in any order give the same child PID |
| `Pids.FreshPidExample` | interrupts.cpp:46-50 | waiting PIDs 3, 1, 4 and running PID 0 give child PID 5, in either order |
| `Pids.ForkKeepsSenior` | interrupts.cpp:136-142 | the child's queue is the parent's queue plus the parent; every PCB in it has a smaller PID than the child, and the child is not in it |
| `ChildSplit.SplitChildTrace` | interrupts.cpp:100-128 | the scan loop returns exactly the child trace and resume index of the scan function `Split` |
| `ChildSplit.ChildIsSubsequence` | interrupts.cpp:100-128 | the child trace is a subsequence of the lines after the FORK, in their original order; its multiset is included in theirs, each of its lines is a line of the trace, and it is strictly shorter than the trace |
| `ChildSplit.ParentIndexAfterFork` | interrupts.cpp:103-129 | if an IF_PARENT follows the FORK at `i`, the resume index is an IF_PARENT line after `i`; if none does, it stays at `i` |
| `ChildSplit.ChildWellFormed` | interrupts.cpp:121-126 | the child trace holds only lines of the parent's trace, so it is as well formed |
| `ChildSplit.SplitExample` | interrupts.cpp:100-129 | for FORK, IF_CHILD, CPU 5, IF_PARENT, CPU 7, ENDIF the child trace is exactly [CPU 5] and the parent resumes after the IF_PARENT at line 3 |
| `WaitQueue.FilterQueue` | interrupts.cpp:229-234 | the filter loop returns `Without(q, pid)`: a PCB is kept exactly when it is in the queue and its PID differs |
| `WaitQueue.WithoutMembers` | interrupts.cpp:229-234 | a PCB is in the pruned queue if and only if it is in the queue with a different PID |
| `WaitQueue.WithoutCounts` | interrupts.cpp:229-234 | every PCB with a different PID keeps its multiplicity, and the queue never grows |
| `WaitQueue.WithoutAppend` | interrupts.cpp:229-234 | pruning distributes over concatenation, so the kept entries stay in queue order |
| `WaitQueue.WithoutJuniorIsIdentity` | interrupts.cpp:226-236 | when every waiting PID is below the running PID, the EXEC filter returns the queue unchanged |
| `WaitQueue.ExecKeepsSenior` | interrupts.cpp:226-236 | the new image keeps the PID, so the pruned queue still has only smaller PIDs |
| `WaitQueue.WaitingRows` | interrupts.cpp:87-91 | the loop returns one waiting row per PCB of the queue, in queue order, and nothing else |
| `Cursor.NextCursor` | interrupts.cpp:129 | after line `i` the cursor moves strictly forward, to at most the end of the trace: EXEC ends the walk, FORK jumps past its resume index, other lines move by one |
| `Cursor.VisitsOrdered` | interrupts.cpp:18-19 | the walk visits only lines of the trace, starting where it starts, each at most once, in increasing order (these are the lines `Semantics.Walk` interprets, by `Semantics.WalkIsAlongVisits`) |
| `Cursor.VisitsEveryLine` | interrupts.cpp:18-36 | with no FORK and no EXEC the walk visits every line from `i` to the end, once each, in trace order |
| `Cursor.ExecEndsWalk` | interrupts.cpp:247 | a visited EXEC line is the last line the walk interprets, whether the EXEC succeeded or failed (for `Semantics.Walk` itself, see `Semantics.WalkAtExec`) |
| `Cursor.AsWrittenAgreesWithIfParent` | interrupts.cpp:103-129 | when an IF_PARENT follows the FORK, the as-written scan and the model's give the same child trace and the same next cursor |
| `Cursor.AsWrittenForkRewinds` | interrupts.cpp:103-129 | as written, a FORK with no IF_PARENT after it sends the cursor to line 1; in the model the cursor moves on to `i + 1` |
| `Cursor.AsWrittenForkLoops` | interrupts.cpp:103-129 | for the trace `CPU, 10` / `FORK, 2` the as-written cursor returns to the FORK at line 1; the model visits lines 0 and 1 once each |
| `Semantics.IsrSteps` | interrupts.cpp:32-36 | the END_IO tail is the ISR step then IRET, clock-consistent from `t` to `t` + delay + 1 |
| `Semantics.CloneSteps` | interrupts.cpp:61-67 | the FORK steps are clone, scheduler, IRET, clock-consistent from `t` to `t` + clone cost + 1 |
| `Semantics.LoadSteps` | interrupts.cpp:170-190 | the EXEC steps are program size, loading, marking, PCB update, scheduler and IRET, clock-consistent from `t` to `t` + `d` + 15·size + 3 + 6 + 1 |
| `Semantics.LineCharge` | interrupts.cpp:23-36 | a line other than FORK and EXEC logs clock-consistently when the helpers do, and does not move the clock back for a non-negative duration |
| `Semantics.Walk` | interrupts.cpp:18-249 | a walk leaves every table entry as it was or "empty"; its log is clock-consistent when the helpers' logs are; its clock never goes back when no duration or delay is negative |
| `Semantics.Interpret` | interrupts.cpp:19-248 | one line leaves every table entry as it was or "empty", logs clock-consistently and never moves the clock back under the same hypotheses |
| `Semantics.Fork` | interrupts.cpp:37-148 | a FORK, the child's run included, leaves every table entry as it was or "empty", logs clock-consistently and never moves the clock back under the same hypotheses |
| `Semantics.ChildRun` | interrupts.cpp:142-147 | the child's run leaves the child's entry "empty" and every other entry as it was or "empty", and keeps the clock properties |
| `Semantics.Exec` | interrupts.cpp:152-168 | an EXEC, on every path, leaves every table entry as it was or "empty", logs clock-consistently and never moves the clock back for a non-negative duration |
| `Semantics.Load` | interrupts.cpp:170-241 | a load and the new image's run leave every table entry as it was or "empty" and keep the clock properties |
| `Semantics.Image` | interrupts.cpp:214-241 | the new image's run leaves its own entry "empty" and every other entry as it was or "empty", and keeps the clock properties |
| `Semantics.ForkOutcome` | interrupts.cpp:37-148 | with no partition: the entry lines, one error line, no snapshot, the clock after the entry and the table unchanged; otherwise: the entry lines then the clone steps, the first snapshot shows the child (next PID, parent's program and size, found partition) running over the parent and the queue, and the rest of the log, the snapshots, the clock and the table are those of the child's run on the split sub-trace with the parent appended to the queue, from the clock after IRET, with the child's entry tagged; the child's entry is "empty" at the end |
| `Semantics.ExecOutcome` | interrupts.cpp:152-245 | an unknown program or no partition: the entry lines, one error line, no snapshot, the clock after the entry and the table unchanged; otherwise: the entry lines then the six load steps, the first snapshot shows the new image running over the queue, and the rest is the image's run with the own PID pruned from the queue, from the clock after IRET, on the table with the old entry freed and the new one tagged; both entries are "empty" at the end |
| `Semantics.WalkPlain` | interrupts.cpp:18-36 | with no FORK and no EXEC a walk logs exactly each line's charge in trace order, ends at the clock of the last one, takes no snapshot and leaves the table unchanged |
| `Semantics.WalkIsAlongVisits` | interrupts.cpp:18-249 | a walk from line `i` is exactly the interpretation of the lines `Visits(trace, i)`, one after the other in that order, each from the clock and table the previous one left |
| `Semantics.WalkAtExec` | interrupts.cpp:152-247 | a walk that reaches an EXEC line produces exactly that EXEC's outcome: no line after it is interpreted, whether it loads or fails |
| `Semantics.WalkElapsed` | interrupts.cpp:18-249 | when the helpers log clock-consistently, a walk ends at its start time plus the sum of every duration it logs, recursive runs included |
| `Engine.EndIoEvent` | interrupts.cpp:27-36 | END_IO adds the boilerplate lines, then the ISR line, then the IRET line; the clock ends at boilerplate + `delays[d]` + 1 |
| `Engine.ForkClone` | interrupts.cpp:58-92 | only the child's table entry changes, to the parent's program; the log is exactly the clone, scheduler and IRET steps with their durations; the clock advances by clone cost + 1; the snapshot lists the child running, then the parent and the queue waiting |
| `Engine.ExecLoad` | interrupts.cpp:170-210 | the old partition is set to "empty", then the new one to the program, and nothing else changes; the log is exactly the six load steps with their durations; the clock advances by `d` + 15·size + 3 + 6 + 1; the snapshot lists the new image running and the queue waiting |
| `Engine.ForkEvent` | interrupts.cpp:37-148 | returns and leaves in the table exactly the outcome of `Semantics.Fork`; the cursor resumes at `NextCursor`; every table entry ends as it was or "empty" |
| `Engine.ForkRun` | interrupts.cpp:134-148 | the recursive call on the child's sub-trace followed by the free of its entry computes exactly `Semantics.ChildRun` |
| `Engine.ExecEvent` | interrupts.cpp:152-245 | returns and leaves in the table exactly the outcome of `Semantics.Exec`; the returned partition is the search result when the load happens and -1 otherwise; every table entry ends as it was or "empty" |
| `Engine.ExecRun` | interrupts.cpp:170-241 | the load, the queue filter and the image's run compute exactly `Semantics.Load` |
| `Engine.RunImage` | interrupts.cpp:236-241 | the recursive call on the program's trace followed by the free of its entry computes exactly `Semantics.Image` |
| `Engine.Dispatch` | interrupts.cpp:19-248 | one loop iteration computes exactly `Semantics.Interpret` and moves the cursor to `NextCursor`; a line other than FORK and EXEC logs its `LineCharge`, takes no snapshot and leaves the table unchanged; a marker or unknown line logs nothing and keeps the clock; every table entry ends as it was or "empty" |
| `Engine.SimulateTrace` | interrupts.cpp:10-252 | the walk computes exactly `Semantics.Walk` from line 0; every table entry ends as it was or "empty"; the log is clock-consistent when the helpers' logs are; the clock never goes back when no duration or delay is negative; with no FORK and no EXEC the log is each line's charge in trace order, with no snapshot and an unchanged table |

## Findings

| source | as written | input that shows it | evidently intended | confidence | as-written member | corrected member |
|---|---|---|---|---|---|---|
| interrupts.cpp:103-129 | `parent_index` starts at 0. A FORK with no later IF_PARENT sets `i = 0`, and the loop's `i++` resumes at line 1. | trace `CPU, 10` / `FORK, 2`: the FORK at line 1 sends the cursor back to line 1, so the walk never ends | the parent resumes after the FORK (`parent_index` starts at `i`), and the cursor never moves backwards | not executed; high that the as-written loop does not end, medium on the intended resume point | `Cursor.AsWrittenForkLoops` | `Cursor.NextCursor` |

## Left out

- `main` (interrupts.cpp:254-303) is not modelled: argument parsing, reading the input file, the bootstrap allocation `allocate_memory` and writing the two output files are I/O or belong to `main`.
- `parse_trace` is not modelled: trace lines are given already decoded as `Event` values, and an unknown activity becomes `Other`.
- Reading the exec'd program's trace file (interrupts.cpp:214-220) becomes the function value `Env.programTrace`.
- The bodies of `simulate_cpu`, `handle_interrupt`, `intr_boilerplate`, `find_available_partition` and `get_program_size` are not available. They are function values in `Env`. The interpreter's contracts require two things of them (`Env.Valid`): the partition search returns -1 or an index of the table, and every program's loaded trace is well formed. Clock consistency (`Env.Clocked`) and a clock that never goes back (`Env.Forward`) are hypotheses of the results that state them, not requirements.
- Partition capacities and the first-fit policy are not modelled, because only the unseen partition search reads them. `memory` holds only the occupant tags the core writes.
- The text layout of log lines and status tables (interrupts.cpp:70-92, 193-210) is not modelled: logs are sequences of typed records.
- Integer widths are not modelled. The clock, durations and sizes are unbounded integers. PIDs are `nat`, so the conversion of a negative PID to `unsigned int` at interrupts.cpp:48 is left out.
- `delays[d]` with `d` outside the table is an out-of-range access in the source (interrupts.cpp:32-33). The model requires well-formed traces (`WellFormed`).
- Engine.ExecEvent: an EXEC by a process with no partition is out of range only when the load goes ahead (interrupts.cpp:185). It requires a table partition only in that case (`ExecLoads ==> InTable`), so both error paths (interrupts.cpp:162-168) are modelled for such a process.
- Engine.SimulateTrace: a walk requires `Loadable`, which means the process holds a table partition, or no EXEC line of its trace would load whatever the table holds. `main` runs the root with no partition when allocation fails (interrupts.cpp:268-272). A walk for such a root whose EXEC fails only because of the table's current contents is outside this precondition.
- Engine.ExecEvent: EXEC nesting is bounded by `fuel`. When it runs out, the new image's trace is not simulated, but the partition swap, the snapshot and the final free still happen (`Semantics.Image`).
