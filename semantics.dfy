// What simulate_trace (interrupts.cpp:10-252) computes, as functions: the
// execution log, the status snapshots, the clock it ends at and the partition
// table it leaves behind, for a walk over a trace, for one line of it, and
// for the FORK and EXEC branches that re-enter the walk. The methods of
// Engine are proved to compute exactly these values; the properties the
// interpreter keeps are stated here, on the functions.

module Semantics {
  import opened SimTypes
  import opened Pids
  import opened ChildSplit
  import opened WaitQueue
  import opened Cursor

  /** What interpreting a stretch of trace produces. */
  datatype Outcome = Outcome(lines: seq<ExecLine>, snaps: seq<Snapshot>, time: int, mem: seq<string>)

  /** `o` preceded by lines and snapshots logged before it. */
  function After(lines: seq<ExecLine>, snaps: seq<Snapshot>, o: Outcome): Outcome
  {
    Outcome(lines + o.lines, snaps + o.snaps, o.time, o.mem)
  }

  /** Every partition entry is as it was or has been freed: the interpreter writes nothing else for good. */
  predicate OnlyFreed(before: seq<string>, after: seq<string>)
  {
    |after| == |before| && forall k :: 0 <= k < |before| ==> after[k] == before[k] || after[k] == Empty
  }

  /** EXEC `e` gets as far as loading: the program is known and the search finds a partition in `mem`. */
  predicate ExecLoads(env: Env, e: Event, q: seq<PCB>, mem: seq<string>)
  {
    env.programSize(e.programName) != 0 && env.findPartition(env.programSize(e.programName), q, mem) != -1
  }

  /**
   * Every load the walk may reach frees a table entry (interrupts.cpp:185):
   * the process holds a partition of the table, or no EXEC line of its trace
   * loads whatever the table holds.
   */
  ghost predicate Loadable(env: Env, trace: seq<Event>, current: PCB, q: seq<PCB>, memLen: nat)
  {
    InTable(current.partition, memLen) ||
    forall e, m :: e in trace && e.activity == EXEC && |m| == memLen ==> !ExecLoads(env, e, q, m)
  }

  /** END_IO after the interrupt entry (interrupts.cpp:32-36): the device's ISR, then IRET. */
  function IsrSteps(t: int, delay: int): (r: seq<ExecLine>)
    ensures Chained(r, t, t + delay + IretCost)
    ensures Labels(r) == [EndIoIsr, Iret]
  {
    ChainedStep([], t, t, delay, EndIoIsr);
    assert [] + [Step(t, delay, EndIoIsr)] == [Step(t, delay, EndIoIsr)];
    ChainedStep([Step(t, delay, EndIoIsr)], t, t + delay, IretCost, Iret);
    [Step(t, delay, EndIoIsr), Step(t + delay, IretCost, Iret)]
  }

  /** A successful FORK before the child runs (interrupts.cpp:61-67): clone for `d`, scheduler, IRET. */
  function CloneSteps(t: int, d: int): (r: seq<ExecLine>)
    ensures Chained(r, t, t + d + IretCost)
    ensures Labels(r) == [CloningPcb, SchedulerCalled, Iret]
  {
    var s1 := [Step(t, d, CloningPcb)];
    var s2 := s1 + [Step(t + d, 0, SchedulerCalled)];
    ChainedStep([], t, t, d, CloningPcb);
    assert [] + s1 == s1;
    ChainedStep(s1, t, t + d, 0, SchedulerCalled);
    ChainedStep(s2, t, t + d, IretCost, Iret);
    s2 + [Step(t + d, IretCost, Iret)]
  }

  /**
   * A successful EXEC before the new image runs (interrupts.cpp:170-190): the
   * declared duration, 15 per unit of size, 3, 6, the scheduler and IRET.
   */
  function LoadSteps(t: int, d: int, size: nat): (r: seq<ExecLine>)
    ensures Chained(r, t, t + d + LoadCostPerUnit * size + MarkOccupiedCost + UpdatePcbCost + IretCost)
    ensures Labels(r) == [ProgramSize(size), LoadingProgram, MarkingPartition, UpdatingPcb, SchedulerCalled, Iret]
  {
    var t1 := t + d;
    var t2 := t1 + LoadCostPerUnit * size;
    var t3 := t2 + MarkOccupiedCost;
    var t4 := t3 + UpdatePcbCost;
    var s1 := [Step(t, d, ProgramSize(size))];
    var s2 := s1 + [Step(t1, LoadCostPerUnit * size, LoadingProgram)];
    var s3 := s2 + [Step(t2, MarkOccupiedCost, MarkingPartition)];
    var s4 := s3 + [Step(t3, UpdatePcbCost, UpdatingPcb)];
    var s5 := s4 + [Step(t4, 0, SchedulerCalled)];
    ChainedStep([], t, t, d, ProgramSize(size));
    assert [] + s1 == s1;
    ChainedStep(s1, t, t1, LoadCostPerUnit * size, LoadingProgram);
    ChainedStep(s2, t, t2, MarkOccupiedCost, MarkingPartition);
    ChainedStep(s3, t, t3, UpdatePcbCost, UpdatingPcb);
    ChainedStep(s4, t, t4, 0, SchedulerCalled);
    ChainedStep(s5, t, t4, IretCost, Iret);
    s5 + [Step(t4, IretCost, Iret)]
  }

  /** The FORK status table (interrupts.cpp:70-92): the child running, the parent and the queue waiting. */
  function ForkSnapshot(t: int, d: int, child: PCB, parent: PCB, q: seq<PCB>): Snapshot
  {
    Snapshot(t, ForkTrigger, d, [RunningRow(child), WaitingRow(parent)] + WaitingTable(q))
  }

  /** The EXEC status table (interrupts.cpp:193-210): the new image running, the queue waiting. */
  function ExecSnapshot(t: int, d: int, image: PCB, q: seq<PCB>): Snapshot
  {
    Snapshot(t, ExecTrigger, d, [RunningRow(image)] + WaitingTable(q))
  }

  /**
   * What a line other than FORK and EXEC logs and charges (interrupts.cpp:23-36):
   * CPU and SYSCALL are their helpers' lines; END_IO is the interrupt entry, the
   * ISR and IRET; markers and unknown lines do nothing.
   */
  function LineCharge(env: Env, e: Event, t: int): (c: Charge)
    requires EventOk(e, env.delays)
    ensures env.Clocked() ==> Chained(c.lines, t, c.time)
    ensures env.Forward() && e.duration >= 0 ==> t <= c.time
  {
    match e.activity
    case CPU => env.cpu(e.duration, t)
    case SYSCALL => env.syscall(e.duration, t)
    case END_IO =>
      var bp := env.boilerplate(t, e.duration, ContextSaveCost);
      var c := Charge(bp.lines + IsrSteps(bp.time, env.delays[e.duration]),
                      bp.time + env.delays[e.duration] + IretCost);
      assert env.Clocked() ==> Chained(c.lines, t, c.time) by {
        if env.Clocked() {
          ChainedAppend(bp.lines, IsrSteps(bp.time, env.delays[e.duration]), t, bp.time, c.time);
        }
      }
      c
    case _ => Charge([], t)
  }

  /**
   * The walk from line `i` (interrupts.cpp:18-249): interpret the line, move
   * the cursor as the main loop does, and go on until the cursor leaves the
   * trace (an EXEC moves it to the end, which is the loop's `break`).
   */
  function Walk(trace: seq<Event>, i: nat, time: int, env: Env, current: PCB, q: seq<PCB>,
                mem: seq<string>, fuel: nat): (r: Outcome)
    requires env.Valid(|mem|) && WellFormed(trace, env.delays) && Loadable(env, trace, current, q, |mem|)
    ensures OnlyFreed(mem, r.mem)
    ensures env.Clocked() ==> Chained(r.lines, time, r.time)
    ensures env.Forward() && NonNegative(trace) ==> time <= r.time
    decreases fuel, |trace|, 3, |trace| - i
  {
    if i >= |trace| then Outcome([], [], time, mem)
    else
      var o := Interpret(trace, i, time, env, current, q, mem, fuel);
      var rest := Walk(trace, NextCursor(trace, i), o.time, env, current, q, o.mem, fuel);
      var r := After(o.lines, o.snaps, rest);
      assert env.Clocked() ==> Chained(r.lines, time, r.time) by {
        if env.Clocked() {
          ChainedAppend(o.lines, rest.lines, time, o.time, rest.time);
        }
      }
      r
  }

  /** One iteration of the main loop (interrupts.cpp:19-248) on line `i`. */
  function Interpret(trace: seq<Event>, i: nat, time: int, env: Env, current: PCB, q: seq<PCB>,
                     mem: seq<string>, fuel: nat): (r: Outcome)
    requires i < |trace|
    requires env.Valid(|mem|) && WellFormed(trace, env.delays) && Loadable(env, trace, current, q, |mem|)
    ensures OnlyFreed(mem, r.mem)
    ensures env.Clocked() ==> Chained(r.lines, time, r.time)
    ensures env.Forward() && NonNegative(trace) ==> time <= r.time
    decreases fuel, |trace|, 2
  {
    var e := trace[i];
    assert e in trace;
    match e.activity
    case FORK => Fork(trace, i, time, env, current, q, mem, fuel)
    case EXEC => Exec(e, time, env, current, q, mem, fuel)
    case _ =>
      var c := LineCharge(env, e, time);
      Outcome(c.lines, [], c.time, mem)
  }

  /**
   * FORK at line `i` (interrupts.cpp:37-148): the interrupt entry; with no
   * partition one error line and nothing else; otherwise the clone steps,
   * the child (the next PID, the parent's program, the found partition)
   * running the child sub-trace with the parent appended to the wait queue,
   * and the child's entry freed when it returns.
   */
  function Fork(trace: seq<Event>, i: nat, time: int, env: Env, current: PCB, q: seq<PCB>,
                mem: seq<string>, fuel: nat): (r: Outcome)
    requires i < |trace| && trace[i].activity == FORK
    requires env.Valid(|mem|) && WellFormed(trace, env.delays)
    ensures OnlyFreed(mem, r.mem)
    ensures env.Clocked() ==> Chained(r.lines, time, r.time)
    ensures env.Forward() && NonNegative(trace) ==> time <= r.time
    decreases fuel, |trace|, 1
  {
    var bp := env.boilerplate(time, ForkIntrNum, ContextSaveCost);
    var cp := env.findPartition(current.size, q, mem);
    if cp == -1 then
      var r := Outcome(bp.lines + [Failure(bp.time, ForkNoPartition)], [], bp.time, mem);
      assert env.Clocked() ==> Chained(r.lines, time, r.time) by {
        if env.Clocked() {
          ChainedFailure(bp.lines, time, bp.time, ForkNoPartition);
        }
      }
      r
    else
      var d := trace[i].duration;
      var child := PCB(FreshPid(q, current), current.pid, current.programName, current.size, cp);
      var t := bp.time + d + IretCost;
      var run := ChildRun(trace, i, t, env, child, ChildQueue(q, current),
                          mem[cp - 1 := current.programName], fuel);
      var r := Outcome(bp.lines + CloneSteps(bp.time, d) + run.lines,
                       [ForkSnapshot(t, d, child, current, q)] + run.snaps, run.time, run.mem);
      assert OnlyFreed(mem, r.mem) by {
        forall k | 0 <= k < |mem| ensures r.mem[k] == mem[k] || r.mem[k] == Empty {
          if k != cp - 1 {
            assert mem[cp - 1 := current.programName][k] == mem[k];
          }
        }
      }
      assert env.Clocked() ==> Chained(r.lines, time, r.time) by {
        if env.Clocked() {
          ChainedAppend(bp.lines, CloneSteps(bp.time, d), time, bp.time, t);
          ChainedAppend(bp.lines + CloneSteps(bp.time, d), run.lines, time, t, run.time);
        }
      }
      r
  }

  /**
   * The run of the child forked at line `i` (interrupts.cpp:142-147): the
   * child sub-trace of the split scan from the clock `t` with the child's own
   * queue, then its partition freed by the parent.
   */
  function ChildRun(trace: seq<Event>, i: nat, t: int, env: Env, child: PCB, q: seq<PCB>,
                    mem: seq<string>, fuel: nat): (r: Outcome)
    requires i < |trace| && trace[i].activity == FORK
    requires env.Valid(|mem|) && WellFormed(trace, env.delays) && InTable(child.partition, |mem|)
    ensures OnlyFreed(mem, r.mem) && r.mem[child.partition - 1] == Empty
    ensures env.Clocked() ==> Chained(r.lines, t, r.time)
    ensures env.Forward() && NonNegative(trace) ==> t <= r.time
    decreases fuel, |trace|, 0
  {
    ChildIsSubsequence(trace, i);
    ChildWellFormed(trace, i, env.delays);
    assert NonNegative(trace) ==> NonNegative(Split(trace, i).child);
    var run := Walk(Split(trace, i).child, 0, t, env, child, q, mem, fuel);
    run.(mem := run.mem[child.partition - 1 := Empty])
  }

  /**
   * EXEC of `e` (interrupts.cpp:152-168, 245): the interrupt entry; an
   * unknown program or no partition gives one error line and nothing else;
   * otherwise the load and run of `Load`.
   */
  function Exec(e: Event, time: int, env: Env, current: PCB, q: seq<PCB>,
                mem: seq<string>, fuel: nat): (r: Outcome)
    requires env.Valid(|mem|)
    requires ExecLoads(env, e, q, mem) ==> InTable(current.partition, |mem|)
    ensures OnlyFreed(mem, r.mem)
    ensures env.Clocked() ==> Chained(r.lines, time, r.time)
    ensures env.Forward() && e.duration >= 0 ==> time <= r.time
    decreases fuel, 0, 2
  {
    var bp := env.boilerplate(time, ExecIntrNum, ContextSaveCost);
    if !ExecLoads(env, e, q, mem) then
      var error := if env.programSize(e.programName) == 0 then ExecNotFound else ExecNoPartition;
      var r := Outcome(bp.lines + [Failure(bp.time, error)], [], bp.time, mem);
      assert env.Clocked() ==> Chained(r.lines, time, r.time) by {
        if env.Clocked() {
          ChainedFailure(bp.lines, time, bp.time, error);
        }
      }
      r
    else
      var load := Load(e, bp.time, env, current, q, mem, fuel);
      var r := After(bp.lines, [], load);
      assert [] + load.snaps == load.snaps;
      assert env.Clocked() ==> Chained(r.lines, time, r.time) by {
        if env.Clocked() {
          ChainedAppend(bp.lines, load.lines, time, bp.time, load.time);
        }
      }
      r
  }

  /**
   * A successful EXEC after the interrupt entry (interrupts.cpp:170-210): the
   * load steps, the old entry freed and the new one tagged, the snapshot, and
   * then the run of the new image (same PID and parent, the program's size
   * and partition) with the process's own PID pruned from the wait queue.
   */
  function Load(e: Event, time: int, env: Env, current: PCB, q: seq<PCB>,
                mem: seq<string>, fuel: nat): (r: Outcome)
    requires env.Valid(|mem|) && ExecLoads(env, e, q, mem) && InTable(current.partition, |mem|)
    ensures OnlyFreed(mem, r.mem)
    ensures env.Clocked() ==> Chained(r.lines, time, r.time)
    ensures env.Forward() && e.duration >= 0 ==> time <= r.time
    decreases fuel, 0, 1
  {
    var size := env.programSize(e.programName);
    var p := env.findPartition(size, q, mem);
    var image := PCB(current.pid, current.ppid, e.programName, size, p);
    var t := time + e.duration + LoadCostPerUnit * size + MarkOccupiedCost + UpdatePcbCost + IretCost;
    var loaded := mem[current.partition - 1 := Empty][p - 1 := e.programName];
    var steps := LoadSteps(time, e.duration, size);
    var run := Image(env, t, image, Without(q, current.pid), loaded, fuel);
    var r := After(steps, [ExecSnapshot(t, e.duration, image, q)], run);
    assert OnlyFreed(mem, r.mem) by {
      forall k | 0 <= k < |mem| ensures r.mem[k] == mem[k] || r.mem[k] == Empty {
        assert r.mem[k] == loaded[k] || r.mem[k] == Empty;
      }
    }
    assert env.Clocked() ==> Chained(r.lines, time, r.time) by {
      if env.Clocked() {
        ChainedAppend(steps, run.lines, time, t, run.time);
      }
    }
    r
  }

  /**
   * The new image's run (interrupts.cpp:214-241): its program's trace from
   * the clock `t`, then its partition freed. With no `fuel` left the trace
   * is not run and only the partition is freed.
   */
  function Image(env: Env, t: int, image: PCB, q: seq<PCB>, mem: seq<string>, fuel: nat): (r: Outcome)
    requires env.Valid(|mem|) && InTable(image.partition, |mem|)
    ensures OnlyFreed(mem, r.mem) && r.mem[image.partition - 1] == Empty
    ensures env.Clocked() ==> Chained(r.lines, t, r.time)
    ensures env.Forward() ==> t <= r.time
    decreases fuel, 0, 0
  {
    if fuel == 0 then Outcome([], [], t, mem[image.partition - 1 := Empty])
    else
      var run := Walk(env.programTrace(image.programName), 0, t, env, image, q, mem, fuel - 1);
      run.(mem := run.mem[image.partition - 1 := Empty])
  }

  /**
   * What a FORK produces, path by path: with no partition the interrupt entry
   * and one error line, no snapshot and the table as it was; otherwise the
   * log opens with the interrupt entry and the clone steps, the first
   * snapshot shows the child (the next PID, the parent's program and size,
   * the found partition) running, and the child's entry is free once the
   * child returns (interrupts.cpp:147).
   */
  lemma ForkOutcome(trace: seq<Event>, i: nat, time: int, env: Env, current: PCB, q: seq<PCB>,
                    mem: seq<string>, fuel: nat)
    requires i < |trace| && trace[i].activity == FORK
    requires env.Valid(|mem|) && WellFormed(trace, env.delays)
    ensures var r := Fork(trace, i, time, env, current, q, mem, fuel);
      var bp := env.boilerplate(time, ForkIntrNum, ContextSaveCost);
      var cp := env.findPartition(current.size, q, mem);
      var d := trace[i].duration;
      (cp == -1 ==> r == Outcome(bp.lines + [Failure(bp.time, ForkNoPartition)], [], bp.time, mem)) &&
      (cp != -1 ==>
        InTable(cp, |mem|) &&
        |r.lines| >= |bp.lines| + 3 && r.lines[..|bp.lines| + 3] == bp.lines + CloneSteps(bp.time, d) &&
        r.snaps != [] &&
        r.snaps[0] == ForkSnapshot(bp.time + d + IretCost, d,
                                   PCB(FreshPid(q, current), current.pid, current.programName, current.size, cp),
                                   current, q) &&
        r.mem[cp - 1] == Empty &&
        var child := PCB(FreshPid(q, current), current.pid, current.programName, current.size, cp);
        var run := ChildRun(trace, i, bp.time + d + IretCost, env, child, ChildQueue(q, current),
                            mem[cp - 1 := current.programName], fuel);
        r.lines[|bp.lines| + 3..] == run.lines && r.snaps[1..] == run.snaps &&
        r.time == run.time && r.mem == run.mem)
  {
    var bp := env.boilerplate(time, ForkIntrNum, ContextSaveCost);
    var cp := env.findPartition(current.size, q, mem);
    if cp != -1 {
      var pre := bp.lines + CloneSteps(bp.time, trace[i].duration);
      var r := Fork(trace, i, time, env, current, q, mem, fuel);
      assert r.lines == pre + r.lines[|pre|..];
      assert r.lines[..|pre|] == pre;
    }
  }

  /**
   * What an EXEC produces, path by path: an unknown program, or no partition
   * for it, gives the interrupt entry and one error line, no snapshot and the
   * table as it was; otherwise the log opens with the interrupt entry and the
   * load steps, the first snapshot shows the new image running, and both the
   * partition the process held (interrupts.cpp:185) and the one its new image
   * ran in (interrupts.cpp:241) are free when it returns.
   */
  lemma ExecOutcome(e: Event, time: int, env: Env, current: PCB, q: seq<PCB>, mem: seq<string>, fuel: nat)
    requires env.Valid(|mem|)
    requires ExecLoads(env, e, q, mem) ==> InTable(current.partition, |mem|)
    ensures var r := Exec(e, time, env, current, q, mem, fuel);
      var bp := env.boilerplate(time, ExecIntrNum, ContextSaveCost);
      var size := env.programSize(e.programName);
      var p := env.findPartition(size, q, mem);
      (size == 0 ==> r == Outcome(bp.lines + [Failure(bp.time, ExecNotFound)], [], bp.time, mem)) &&
      (size != 0 && p == -1 ==> r == Outcome(bp.lines + [Failure(bp.time, ExecNoPartition)], [], bp.time, mem)) &&
      (size != 0 && p != -1 ==>
        InTable(p, |mem|) &&
        |r.lines| >= |bp.lines| + 6 && r.lines[..|bp.lines| + 6] == bp.lines + LoadSteps(bp.time, e.duration, size) &&
        r.snaps != [] &&
        r.snaps[0] == ExecSnapshot(bp.time + e.duration + LoadCostPerUnit * size + MarkOccupiedCost + UpdatePcbCost + IretCost,
                                   e.duration, PCB(current.pid, current.ppid, e.programName, size, p), q) &&
        r.mem[current.partition - 1] == Empty && r.mem[p - 1] == Empty &&
        var t := bp.time + e.duration + LoadCostPerUnit * size + MarkOccupiedCost + UpdatePcbCost + IretCost;
        var run := Image(env, t, PCB(current.pid, current.ppid, e.programName, size, p), Without(q, current.pid),
                         mem[current.partition - 1 := Empty][p - 1 := e.programName], fuel);
        r.lines[|bp.lines| + 6..] == run.lines && r.snaps[1..] == run.snaps &&
        r.time == run.time && r.mem == run.mem)
  {
    var bp := env.boilerplate(time, ExecIntrNum, ContextSaveCost);
    var size := env.programSize(e.programName);
    var p := env.findPartition(size, q, mem);
    if size != 0 && p != -1 {
      var r := Exec(e, time, env, current, q, mem, fuel);
      var load := Load(e, bp.time, env, current, q, mem, fuel);
      var pre := bp.lines + LoadSteps(bp.time, e.duration, size);
      assert load.lines == LoadSteps(bp.time, e.duration, size) + load.lines[6..];
      assert r.lines == pre + load.lines[6..];
      assert r.lines[..|pre|] == pre;
      var loaded := mem[current.partition - 1 := Empty][p - 1 := e.programName];
      assert r.mem[current.partition - 1] == loaded[current.partition - 1] || r.mem[current.partition - 1] == Empty;
    }
  }

  /** One step of the walk: the line's outcome, then the walk from where the cursor goes. */
  lemma WalkUnfold(trace: seq<Event>, i: nat, time: int, env: Env, current: PCB, q: seq<PCB>,
                   mem: seq<string>, fuel: nat)
    requires i < |trace|
    requires env.Valid(|mem|) && WellFormed(trace, env.delays) && Loadable(env, trace, current, q, |mem|)
    ensures var o := Interpret(trace, i, time, env, current, q, mem, fuel);
      Walk(trace, i, time, env, current, q, mem, fuel) ==
      After(o.lines, o.snaps, Walk(trace, NextCursor(trace, i), o.time, env, current, q, o.mem, fuel))
  {
  }

  /**
   * Interpreting the lines `vs` one after the other, each from the clock and
   * table the previous one left.
   */
  function Along(trace: seq<Event>, vs: seq<nat>, time: int, env: Env, current: PCB, q: seq<PCB>,
                 mem: seq<string>, fuel: nat): Outcome
    requires forall k :: 0 <= k < |vs| ==> vs[k] < |trace|
    requires env.Valid(|mem|) && WellFormed(trace, env.delays) && Loadable(env, trace, current, q, |mem|)
    decreases |vs|
  {
    if vs == [] then Outcome([], [], time, mem)
    else
      var o := Interpret(trace, vs[0], time, env, current, q, mem, fuel);
      After(o.lines, o.snaps, Along(trace, vs[1..], o.time, env, current, q, o.mem, fuel))
  }

  /**
   * The walk interprets exactly the lines `Visits(trace, i)`, in that order,
   * so what `Cursor` proves of the visited lines holds of the walk: each line
   * at most once, in increasing order, and every line of a trace with no
   * FORK and no EXEC.
   */
  lemma {:induction false} WalkIsAlongVisits(trace: seq<Event>, i: nat, time: int, env: Env, current: PCB,
                                             q: seq<PCB>, mem: seq<string>, fuel: nat)
    requires env.Valid(|mem|) && WellFormed(trace, env.delays) && Loadable(env, trace, current, q, |mem|)
    ensures Walk(trace, i, time, env, current, q, mem, fuel) ==
      Along(trace, Visits(trace, i), time, env, current, q, mem, fuel)
    decreases |trace| - i
  {
    if i < |trace| {
      var o := Interpret(trace, i, time, env, current, q, mem, fuel);
      assert Visits(trace, i)[1..] == Visits(trace, NextCursor(trace, i));
      WalkIsAlongVisits(trace, NextCursor(trace, i), o.time, env, current, q, o.mem, fuel);
    }
  }

  /**
   * Once the walk reaches an EXEC line, the EXEC is all that remains: nothing
   * after it is interpreted, whether it loads or fails (interrupts.cpp:247).
   */
  lemma WalkAtExec(trace: seq<Event>, i: nat, time: int, env: Env, current: PCB, q: seq<PCB>,
                   mem: seq<string>, fuel: nat)
    requires i < |trace| && trace[i].activity == EXEC
    requires env.Valid(|mem|) && WellFormed(trace, env.delays) && Loadable(env, trace, current, q, |mem|)
    ensures Walk(trace, i, time, env, current, q, mem, fuel) == Exec(trace[i], time, env, current, q, mem, fuel)
  {
    assert trace[i] in trace;
    var o := Interpret(trace, i, time, env, current, q, mem, fuel);
    assert o.lines + [] == o.lines;
    assert o.snaps + [] == o.snaps;
  }

  /** Logging in two parts is logging their concatenation. */
  lemma AfterAfter(a: seq<ExecLine>, sa: seq<Snapshot>, b: seq<ExecLine>, sb: seq<Snapshot>, o: Outcome)
    ensures After(a, sa, After(b, sb, o)) == After(a + b, sa + sb, o)
  {
    assert a + (b + o.lines) == (a + b) + o.lines;
    assert sa + (sb + o.snaps) == (sa + sb) + o.snaps;
  }

  /**
   * The reference log of a trace with no FORK and no EXEC, from line `i` on:
   * every line in trace order, each charged at the clock the previous one left.
   */
  function Charges(env: Env, trace: seq<Event>, i: nat, t: int): Charge
    requires WellFormed(trace, env.delays)
    decreases |trace| - i
  {
    if i >= |trace| then Charge([], t)
    else
      assert trace[i] in trace;
      var c := LineCharge(env, trace[i], t);
      var rest := Charges(env, trace, i + 1, c.time);
      Charge(c.lines + rest.lines, rest.time)
  }

  /**
   * With no FORK and no EXEC the walk logs exactly the reference log, ends at
   * its clock, takes no snapshot and leaves the table as it was.
   */
  lemma {:induction false} WalkPlain(trace: seq<Event>, i: nat, time: int, env: Env, current: PCB, q: seq<PCB>,
                                     mem: seq<string>, fuel: nat)
    requires env.Valid(|mem|) && WellFormed(trace, env.delays) && Loadable(env, trace, current, q, |mem|)
    requires Plain(trace)
    ensures var c := Charges(env, trace, i, time);
      Walk(trace, i, time, env, current, q, mem, fuel) == Outcome(c.lines, [], c.time, mem)
    decreases |trace| - i
  {
    if i < |trace| {
      assert trace[i] in trace;
      assert NextCursor(trace, i) == i + 1;
      var c := LineCharge(env, trace[i], time);
      WalkPlain(trace, i + 1, c.time, env, current, q, mem, fuel);
    }
  }

  /**
   * If the helpers log clock-consistently, a walk ends at its start time plus
   * the sum of every duration it logs, recursive runs included.
   */
  lemma WalkElapsed(trace: seq<Event>, i: nat, time: int, env: Env, current: PCB, q: seq<PCB>,
                    mem: seq<string>, fuel: nat)
    requires env.Valid(|mem|) && WellFormed(trace, env.delays) && Loadable(env, trace, current, q, |mem|)
    requires env.Clocked()
    ensures var r := Walk(trace, i, time, env, current, q, mem, fuel);
      r.time == time + Elapsed(r.lines)
  {
    var r := Walk(trace, i, time, env, current, q, mem, fuel);
    ChainedElapsed(r.lines, time, r.time);
  }
}
