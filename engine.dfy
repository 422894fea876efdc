// The trace interpreter simulate_trace (interrupts.cpp:10-252): a walk over
// the trace with an explicit cursor that advances a virtual clock, appends to
// the execution and status logs, writes the partition table in place, and
// re-enters itself for a forked child and for an exec'd program. Each method
// is proved to compute what the matching function of Semantics says.

module Engine {
  import opened SimTypes
  import opened Pids
  import opened ChildSplit
  import opened WaitQueue
  import opened Cursor
  import opened Semantics

  /** END_IO (interrupts.cpp:27-36): interrupt entry, the device's delay, then IRET. */
  method EndIoEvent(env: Env, time: int, device: int) returns (lines: seq<ExecLine>, newTime: int)
    requires 0 <= device < |env.delays|
    ensures var bp := env.boilerplate(time, device, ContextSaveCost);
      lines == bp.lines + IsrSteps(bp.time, env.delays[device]) &&
      newTime == bp.time + env.delays[device] + IretCost
    ensures env.Clocked() ==> Chained(lines, time, newTime)
  {
    var bp := env.boilerplate(time, device, ContextSaveCost);
    lines := bp.lines;
    newTime := bp.time;
    lines := lines + [Step(newTime, env.delays[device], EndIoIsr)];
    newTime := newTime + env.delays[device];
    lines := lines + [Step(newTime, IretCost, Iret)];
    newTime := newTime + IretCost;
    assert lines == bp.lines + IsrSteps(bp.time, env.delays[device]);
    if env.Clocked() {
      ChainedAppend(bp.lines, IsrSteps(bp.time, env.delays[device]), time, bp.time, newTime);
    }
  }

  /**
   * A successful FORK before its child runs (interrupts.cpp:59-92): clone
   * cost, scheduler, IRET, the child's partition tagged with the parent's
   * program, and the status snapshot of child, parent and wait queue.
   */
  method ForkClone(time: int, d: int, child: PCB, current: PCB, waitQueue: seq<PCB>, memory: array<string>)
    returns (lines: seq<ExecLine>, newTime: int, snap: Snapshot)
    requires InTable(child.partition, memory.Length)
    modifies memory
    ensures memory[..] == old(memory[..])[child.partition - 1 := current.programName]
    ensures lines == CloneSteps(time, d) && newTime == time + d + IretCost
    ensures snap == ForkSnapshot(newTime, d, child, current, waitQueue)
  {
    lines, newTime := [], time;
    lines := lines + [Step(newTime, d, CloningPcb)];
    memory[child.partition - 1] := current.programName;
    newTime := newTime + d;
    lines := lines + [Step(newTime, 0, SchedulerCalled)];
    lines := lines + [Step(newTime, IretCost, Iret)];
    newTime := newTime + IretCost;
    var waiting := WaitingRows(waitQueue);
    snap := Snapshot(newTime, ForkTrigger, d, [RunningRow(child), WaitingRow(current)] + waiting);
  }

  /**
   * A successful EXEC before the new image runs (interrupts.cpp:170-210): the
   * six charged steps, the old partition freed and the new one tagged, and the
   * status snapshot of the new image and the wait queue.
   */
  method ExecLoad(time: int, d: int, name: string, size: nat, p: int, current: PCB, waitQueue: seq<PCB>,
                  memory: array<string>)
    returns (lines: seq<ExecLine>, newTime: int, snap: Snapshot)
    requires InTable(current.partition, memory.Length) && InTable(p, memory.Length)
    modifies memory
    ensures memory[..] == old(memory[..])[current.partition - 1 := Empty][p - 1 := name]
    ensures lines == LoadSteps(time, d, size)
    ensures newTime == time + d + LoadCostPerUnit * size + MarkOccupiedCost + UpdatePcbCost + IretCost
    ensures snap == ExecSnapshot(newTime, d, PCB(current.pid, current.ppid, name, size, p), waitQueue)
  {
    lines, newTime := [], time;
    lines := lines + [Step(newTime, d, ProgramSize(size))];
    newTime := newTime + d;
    lines := lines + [Step(newTime, LoadCostPerUnit * size, LoadingProgram)];
    newTime := newTime + LoadCostPerUnit * size;
    lines := lines + [Step(newTime, MarkOccupiedCost, MarkingPartition)];
    newTime := newTime + MarkOccupiedCost;
    lines := lines + [Step(newTime, UpdatePcbCost, UpdatingPcb)];
    newTime := newTime + UpdatePcbCost;
    memory[current.partition - 1] := Empty;
    memory[p - 1] := name;
    lines := lines + [Step(newTime, 0, SchedulerCalled)];
    lines := lines + [Step(newTime, IretCost, Iret)];
    newTime := newTime + IretCost;
    var waiting := WaitingRows(waitQueue);
    snap := Snapshot(newTime, ExecTrigger, d, [Row(current.pid, name, p, size, Running)] + waiting);
  }

  /**
   * FORK at line `i` (interrupts.cpp:37-148): interrupt entry, a fresh PID, a
   * partition for a copy of the parent; on failure one error line and nothing
   * else; on success the clone steps, the child's sub-trace run with the
   * parent appended to the wait queue, and the child's partition freed when
   * it returns. Either way the parent resumes after the line the split scan
   * stopped at.
   */
  method ForkEvent(trace: seq<Event>, i: nat, time: int, env: Env, current: PCB, waitQueue: seq<PCB>,
                   memory: array<string>, fuel: nat)
    returns (lines: seq<ExecLine>, snaps: seq<Snapshot>, newTime: int, childPartition: int, next: nat)
    requires i < |trace| && trace[i].activity == FORK
    requires env.Valid(memory.Length) && WellFormed(trace, env.delays)
    modifies memory
    ensures Outcome(lines, snaps, newTime, memory[..]) ==
      Fork(trace, i, time, env, current, waitQueue, old(memory[..]), fuel)
    ensures next == NextCursor(trace, i)
    ensures childPartition == env.findPartition(current.size, waitQueue, old(memory[..]))
    ensures OnlyFreed(old(memory[..]), memory[..])
    decreases fuel, |trace|, 1
  {
    var bp := env.boilerplate(time, ForkIntrNum, ContextSaveCost);
    lines := bp.lines;
    newTime := bp.time;
    snaps := [];
    var childPid := NextPid(waitQueue, current);
    childPartition := env.findPartition(current.size, waitQueue, memory[..]);
    var child := PCB(childPid, current.pid, current.programName, current.size, childPartition);
    if childPartition == -1 {
      lines := lines + [Failure(newTime, ForkNoPartition)];
    } else {
      var cloneLines, t, snap := ForkClone(newTime, trace[i].duration, child, current, waitQueue, memory);
      lines, newTime, snaps := lines + cloneLines, t, [snap];
    }

    var childTrace, parentIndex := SplitChildTrace(trace, i);
    next := parentIndex + 1;

    if childPartition != -1 {
      var childLines, childSnaps;
      childLines, childSnaps, newTime :=
        ForkRun(trace, i, childTrace, newTime, env, child, ChildQueue(waitQueue, current), memory, fuel);
      lines, snaps := lines + childLines, snaps + childSnaps;
    }
  }

  /**
   * The forked child's run (interrupts.cpp:142-147): the recursive call on
   * its sub-trace, then the parent frees the child's partition.
   */
  method ForkRun(trace: seq<Event>, i: nat, childTrace: seq<Event>, t: int, env: Env, child: PCB,
                 waitQueue: seq<PCB>, memory: array<string>, fuel: nat)
    returns (lines: seq<ExecLine>, snaps: seq<Snapshot>, newTime: int)
    requires i < |trace| && trace[i].activity == FORK && childTrace == Split(trace, i).child
    requires env.Valid(memory.Length) && WellFormed(trace, env.delays)
    requires InTable(child.partition, memory.Length)
    modifies memory
    ensures Outcome(lines, snaps, newTime, memory[..]) ==
      ChildRun(trace, i, t, env, child, waitQueue, old(memory[..]), fuel)
    decreases fuel, |trace|, 0
  {
    ChildIsSubsequence(trace, i);
    ChildWellFormed(trace, i, env.delays);
    lines, snaps, newTime := SimulateTrace(childTrace, t, env, child, waitQueue, memory, fuel);
    memory[child.partition - 1] := Empty;
  }

  /**
   * EXEC (interrupts.cpp:152-168, 245): interrupt entry, the program's size, a
   * partition for it; an unknown program or no partition gives one error
   * line and leaves the table alone; otherwise `ExecRun` loads and runs it.
   */
  method ExecEvent(e: Event, time: int, env: Env, current: PCB, waitQueue: seq<PCB>,
                   memory: array<string>, fuel: nat)
    returns (lines: seq<ExecLine>, snaps: seq<Snapshot>, newTime: int, execPartition: int)
    requires env.Valid(memory.Length)
    requires ExecLoads(env, e, waitQueue, memory[..]) ==> InTable(current.partition, memory.Length)
    modifies memory
    ensures Outcome(lines, snaps, newTime, memory[..]) ==
      Exec(e, time, env, current, waitQueue, old(memory[..]), fuel)
    ensures execPartition == if ExecLoads(env, e, waitQueue, old(memory[..]))
      then env.findPartition(env.programSize(e.programName), waitQueue, old(memory[..])) else -1
    ensures OnlyFreed(old(memory[..]), memory[..])
    decreases fuel, 0, 2
  {
    var bp := env.boilerplate(time, ExecIntrNum, ContextSaveCost);
    newTime := bp.time;
    lines := bp.lines;
    snaps := [];
    var size := env.programSize(e.programName);
    if size == 0 {
      execPartition := -1;
      lines := lines + [Failure(newTime, ExecNotFound)];
      return;
    }
    execPartition := env.findPartition(size, waitQueue, memory[..]);
    if execPartition == -1 {
      lines := lines + [Failure(newTime, ExecNoPartition)];
      return;
    }
    var runLines, runSnaps, runTime, _ := ExecRun(e, newTime, env, current, waitQueue, memory, fuel);
    lines, snaps, newTime := lines + runLines, runSnaps, runTime;
  }

  /**
   * A successful EXEC after its interrupt entry (interrupts.cpp:170-241): the
   * load steps and the partition swap, then the new image run by `RunImage`
   * with the process's own PID pruned from the wait queue.
   */
  method ExecRun(e: Event, time: int, env: Env, current: PCB, waitQueue: seq<PCB>,
                 memory: array<string>, fuel: nat)
    returns (lines: seq<ExecLine>, snaps: seq<Snapshot>, newTime: int, p: int)
    requires env.Valid(memory.Length) && ExecLoads(env, e, waitQueue, memory[..])
    requires InTable(current.partition, memory.Length)
    modifies memory
    ensures Outcome(lines, snaps, newTime, memory[..]) ==
      Load(e, time, env, current, waitQueue, old(memory[..]), fuel)
    ensures p == env.findPartition(env.programSize(e.programName), waitQueue, old(memory[..]))
    decreases fuel, 0, 1
  {
    var size := env.programSize(e.programName);
    p := env.findPartition(size, waitQueue, memory[..]);
    var t, snap;
    lines, t, snap := ExecLoad(time, e.duration, e.programName, size, p, current, waitQueue, memory);
    var execPcb := PCB(current.pid, current.ppid, e.programName, size, p);
    var execQueue := FilterQueue(waitQueue, current.pid);
    var imageLines, imageSnaps;
    imageLines, imageSnaps, newTime := RunImage(env, t, execPcb, execQueue, memory, fuel);
    lines, snaps := lines + imageLines, [snap] + imageSnaps;
  }

  /**
   * The new image's run (interrupts.cpp:214-241): its program's trace while
   * `fuel` lasts, then its partition freed.
   */
  method RunImage(env: Env, t: int, image: PCB, waitQueue: seq<PCB>, memory: array<string>, fuel: nat)
    returns (lines: seq<ExecLine>, snaps: seq<Snapshot>, newTime: int)
    requires env.Valid(memory.Length) && InTable(image.partition, memory.Length)
    modifies memory
    ensures Outcome(lines, snaps, newTime, memory[..]) == Image(env, t, image, waitQueue, old(memory[..]), fuel)
    decreases fuel, 0, 0
  {
    lines, snaps, newTime := [], [], t;
    if fuel > 0 {
      lines, snaps, newTime :=
        SimulateTrace(env.programTrace(image.programName), t, env, image, waitQueue, memory, fuel - 1);
    }
    memory[image.partition - 1] := Empty;
  }

  /**
   * One iteration of the main loop (interrupts.cpp:19-248): interprets line
   * `i` and says where the cursor goes next.
   */
  method Dispatch(trace: seq<Event>, i: nat, time: int, env: Env, current: PCB, waitQueue: seq<PCB>,
                  memory: array<string>, fuel: nat)
    returns (lines: seq<ExecLine>, snaps: seq<Snapshot>, newTime: int, next: nat)
    requires i < |trace|
    requires env.Valid(memory.Length) && WellFormed(trace, env.delays)
    requires Loadable(env, trace, current, waitQueue, memory.Length)
    modifies memory
    ensures Outcome(lines, snaps, newTime, memory[..]) ==
      Interpret(trace, i, time, env, current, waitQueue, old(memory[..]), fuel)
    ensures next == NextCursor(trace, i)
    ensures trace[i].activity != FORK && trace[i].activity != EXEC ==>
      Charge(lines, newTime) == LineCharge(env, trace[i], time) &&
      snaps == [] && memory[..] == old(memory[..])
    ensures trace[i].activity in {IF_PARENT, IF_CHILD, ENDIF, Other} ==>
      lines == [] && snaps == [] && newTime == time && memory[..] == old(memory[..])
    ensures OnlyFreed(old(memory[..]), memory[..])
    decreases fuel, |trace|, 2
  {
    var e := trace[i];
    assert e in trace;
    lines, snaps, newTime, next := [], [], time, i + 1;
    match e.activity {
      case CPU =>
        var c := env.cpu(e.duration, time);
        lines, newTime := c.lines, c.time;
      case SYSCALL =>
        var c := env.syscall(e.duration, time);
        lines, newTime := c.lines, c.time;
      case END_IO =>
        lines, newTime := EndIoEvent(env, time, e.duration);
      case FORK =>
        var cp;
        lines, snaps, newTime, cp, next := ForkEvent(trace, i, time, env, current, waitQueue, memory, fuel);
      case EXEC =>
        var xp;
        lines, snaps, newTime, xp := ExecEvent(e, time, env, current, waitQueue, memory, fuel);
        next := |trace|;
      case _ =>
    }
  }

  /**
   * simulate_trace: interprets `trace` for the process `current` from clock
   * `time` and returns the execution log, the status log and the final clock.
   */
  method SimulateTrace(trace: seq<Event>, time: int, env: Env, current: PCB, waitQueue: seq<PCB>,
                       memory: array<string>, fuel: nat)
    returns (execution: seq<ExecLine>, status: seq<Snapshot>, endTime: int)
    requires env.Valid(memory.Length) && WellFormed(trace, env.delays)
    requires Loadable(env, trace, current, waitQueue, memory.Length)
    modifies memory
    ensures Outcome(execution, status, endTime, memory[..]) ==
      Walk(trace, 0, time, env, current, waitQueue, old(memory[..]), fuel)
    ensures OnlyFreed(old(memory[..]), memory[..])
    ensures env.Clocked() ==> Chained(execution, time, endTime)
    ensures env.Forward() && NonNegative(trace) ==> time <= endTime
    ensures Plain(trace) ==>
      Charge(execution, endTime) == Charges(env, trace, 0, time) && status == [] && memory[..] == old(memory[..])
    decreases fuel, |trace|, 3
  {
    execution, status, endTime := [], [], time;
    var i: nat := 0;
    assert After([], [], Walk(trace, 0, time, env, current, waitQueue, memory[..], fuel)) ==
      Walk(trace, 0, time, env, current, waitQueue, memory[..], fuel);
    while i < |trace|
      invariant i <= |trace|
      invariant Walk(trace, 0, time, env, current, waitQueue, old(memory[..]), fuel) ==
        After(execution, status, Walk(trace, i, endTime, env, current, waitQueue, memory[..], fuel))
      decreases |trace| - i
    {
      WalkUnfold(trace, i, endTime, env, current, waitQueue, memory[..], fuel);
      var lines, snaps, t, next := Dispatch(trace, i, endTime, env, current, waitQueue, memory, fuel);
      AfterAfter(execution, status, lines, snaps, Walk(trace, next, t, env, current, waitQueue, memory[..], fuel));
      execution, status, endTime := execution + lines, status + snaps, t;
      if trace[i].activity == EXEC {
        assert next == |trace|;
        break;
      }
      i := next;
    }
    assert execution + [] == execution;
    assert status + [] == status;
    if Plain(trace) {
      WalkPlain(trace, 0, time, env, current, waitQueue, old(memory[..]), fuel);
    }
  }
}
