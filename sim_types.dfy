// Shared vocabulary of the trace simulator: decoded trace events, process
// control blocks, the structured execution and status logs, and the
// environment of helper routines whose bodies are not part of this model.

module SimTypes {

  /** The activity column of a trace line; anything unrecognised is `Other`. */
  datatype Activity = CPU | SYSCALL | END_IO | FORK | EXEC | IF_PARENT | IF_CHILD | ENDIF | Other

  /** One decoded trace line `ACTIVITY, PARAMETER, NAME`. */
  datatype Event = Event(activity: Activity, duration: int, programName: string)

  /** Process control block. */
  datatype PCB = PCB(pid: nat, ppid: int, programName: string, size: int, partition: int)

  /** Occupant tag of a free partition. */
  const Empty: string := "empty"

  /** Fixed costs used by FORK and EXEC. */
  const ForkIntrNum: int := 2
  const ExecIntrNum: int := 3
  const ContextSaveCost: int := 10
  const LoadCostPerUnit: int := 15
  const MarkOccupiedCost: int := 3
  const UpdatePcbCost: int := 6
  const IretCost: int := 1

  datatype Label =
    | EndIoIsr | Iret | SchedulerCalled | CloningPcb
    | ProgramSize(size: nat) | LoadingProgram | MarkingPartition | UpdatingPcb
    | Kernel(text: string)   // a line written by a helper routine

  datatype ErrorKind = ForkNoPartition | ExecNotFound | ExecNoPartition

  /** One line of the execution log: a timed step `time, duration, text` or an error `time, text`. */
  datatype ExecLine = Step(time: int, duration: int, what: Label) | Failure(time: int, error: ErrorKind)

  datatype ProcState = Running | Waiting

  /** One row of a status table. */
  datatype Row = Row(pid: nat, programName: string, partition: int, size: int, state: ProcState)

  datatype Trigger = ForkTrigger | ExecTrigger

  /** One status snapshot: `time: T; current trace: FORK|EXEC, D` followed by its table. */
  datatype Snapshot = Snapshot(time: int, trigger: Trigger, duration: int, rows: seq<Row>)

  /** What a helper routine returns: the lines it logged and the clock afterwards. */
  datatype Charge = Charge(lines: seq<ExecLine>, time: int)

  /**
   * The log is consistent with the clock: every line carries the clock value
   * at the moment it is written, a step advances the clock by its duration,
   * an error line does not advance it, and the clock ends at `t1`.
   */
  predicate Chained(lines: seq<ExecLine>, t0: int, t1: int)
    decreases |lines|
  {
    if lines == [] then t0 == t1
    else match lines[0]
      case Step(t, d, _) => t == t0 && Chained(lines[1..], t0 + d, t1)
      case Failure(t, _) => t == t0 && Chained(lines[1..], t0, t1)
  }

  /** Sum of the durations of the timed steps of a log. */
  function Elapsed(lines: seq<ExecLine>): int
    decreases |lines|
  {
    if lines == [] then 0
    else (if lines[0].Step? then lines[0].duration else 0) + Elapsed(lines[1..])
  }

  /** The descriptions of the timed steps of a log, in order. */
  function Labels(lines: seq<ExecLine>): seq<Label>
    decreases |lines|
  {
    if lines == [] then []
    else (if lines[0].Step? then [lines[0].what] else []) + Labels(lines[1..])
  }

  /** A clock-consistent log ends at its start time plus the durations it logs. */
  lemma {:induction false} ChainedElapsed(lines: seq<ExecLine>, t0: int, t1: int)
    requires Chained(lines, t0, t1)
    ensures t1 == t0 + Elapsed(lines)
    decreases |lines|
  {
    if lines != [] {
      match lines[0]
      case Step(t, d, _) => ChainedElapsed(lines[1..], t0 + d, t1);
      case Failure(t, _) => ChainedElapsed(lines[1..], t0, t1);
    }
  }

  /** Clock-consistent logs compose when the first ends where the second starts. */
  lemma {:induction false} ChainedAppend(a: seq<ExecLine>, b: seq<ExecLine>, t0: int, t1: int, t2: int)
    requires Chained(a, t0, t1) && Chained(b, t1, t2)
    ensures Chained(a + b, t0, t2)
    decreases |a|
  {
    if a == [] {
      assert a + b == b;
    } else {
      assert (a + b)[0] == a[0];
      assert (a + b)[1..] == a[1..] + b;
      match a[0]
      case Step(t, d, _) => ChainedAppend(a[1..], b, t0 + d, t1, t2);
      case Failure(t, _) => ChainedAppend(a[1..], b, t0, t1, t2);
    }
  }

  /** Logging one more timed step at the current clock and advancing the clock by its duration. */
  lemma {:induction false} ChainedStep(lines: seq<ExecLine>, t0: int, t1: int, d: int, what: Label)
    requires Chained(lines, t0, t1)
    ensures Chained(lines + [Step(t1, d, what)], t0, t1 + d)
    ensures Labels(lines + [Step(t1, d, what)]) == Labels(lines) + [what]
    decreases |lines|
  {
    if lines == [] {
      assert [] + [Step(t1, d, what)] == [Step(t1, d, what)];
      assert [Step(t1, d, what)][1..] == [];
    } else {
      assert (lines + [Step(t1, d, what)])[1..] == lines[1..] + [Step(t1, d, what)];
      match lines[0]
      case Step(t, d0, _) => ChainedStep(lines[1..], t0 + d0, t1, d, what);
      case Failure(t, _) => ChainedStep(lines[1..], t0, t1, d, what);
    }
  }

  /** Logging an error line at the current clock leaves the clock where it is. */
  lemma {:induction false} ChainedFailure(lines: seq<ExecLine>, t0: int, t1: int, error: ErrorKind)
    requires Chained(lines, t0, t1)
    ensures Chained(lines + [Failure(t1, error)], t0, t1)
    decreases |lines|
  {
    if lines == [] {
      assert [] + [Failure(t1, error)] == [Failure(t1, error)];
      assert [Failure(t1, error)][1..] == [];
    } else {
      assert (lines + [Failure(t1, error)])[1..] == lines[1..] + [Failure(t1, error)];
      match lines[0]
      case Step(t, d0, _) => ChainedFailure(lines[1..], t0 + d0, t1, error);
      case Failure(t, _) => ChainedFailure(lines[1..], t0, t1, error);
    }
  }

  /** With no negative duration logged, the clock never goes backwards. */
  lemma {:induction false} ChainedMonotone(lines: seq<ExecLine>, t0: int, t1: int)
    requires Chained(lines, t0, t1)
    requires forall k :: 0 <= k < |lines| && lines[k].Step? ==> lines[k].duration >= 0
    ensures t0 <= t1
    decreases |lines|
  {
    if lines != [] {
      assert forall k :: 0 <= k < |lines| - 1 && lines[1..][k].Step? ==> lines[1..][k].duration >= 0 by {
        forall k | 0 <= k < |lines| - 1 && lines[1..][k].Step? ensures lines[1..][k].duration >= 0 {
          assert lines[1..][k] == lines[k + 1];
        }
      }
      match lines[0]
      case Step(t, d, _) => ChainedMonotone(lines[1..], t0 + d, t1);
      case Failure(t, _) => ChainedMonotone(lines[1..], t0, t1);
    }
  }

  /** The END_IO device number indexes the delay table (the source reads `delays[d]` unchecked). */
  predicate EventOk(e: Event, delays: seq<int>)
  {
    e.activity == END_IO ==> 0 <= e.duration < |delays|
  }

  predicate WellFormed(trace: seq<Event>, delays: seq<int>)
  {
    forall e :: e in trace ==> EventOk(e, delays)
  }

  /** No line of the trace declares a negative duration. */
  predicate NonNegative(trace: seq<Event>)
  {
    forall e :: e in trace ==> e.duration >= 0
  }

  /** A partition number that indexes the partition table (1-based). */
  predicate InTable(p: int, memLen: nat)
  {
    1 <= p <= memLen
  }

  /**
   * The routines the core calls but whose bodies are not modelled:
   *  - cpu(duration, time): the CPU-burst logger;
   *  - syscall(duration, time): the SYSCALL interrupt handler;
   *  - boilerplate(time, intrNum, saveCost): the interrupt-entry sequence;
   *  - findPartition(size, waitQueue, table): the partition search, -1 when none;
   *  - programSize(name): the catalogue lookup, 0 when not found;
   *  - programTrace(name): the decoded lines of the program's own trace file.
   * The vector table is folded into the handlers that read it.
   */
  datatype Env = Env(
    delays: seq<int>,
    cpu: (int, int) -> Charge,
    syscall: (int, int) -> Charge,
    boilerplate: (int, int, int) -> Charge,
    findPartition: (int, seq<PCB>, seq<string>) -> int,
    programSize: string -> nat,
    programTrace: string -> seq<Event>)
  {
    /** What the core relies on: the partition search answers -1 or a table index, and loaded traces are well formed. */
    ghost predicate Valid(memLen: nat)
    {
      (forall s, q, m :: findPartition(s, q, m) == -1 || InTable(findPartition(s, q, m), memLen)) &&
      (forall name :: WellFormed(programTrace(name), delays))
    }

    /**
     * The helper routines never move the clock backwards for a non-negative
     * duration, device delays are non-negative, and so are the durations of
     * every loaded trace.
     */
    ghost predicate Forward()
    {
      (forall k :: 0 <= k < |delays| ==> delays[k] >= 0) &&
      (forall d, t :: d >= 0 ==> cpu(d, t).time >= t) &&
      (forall d, t :: d >= 0 ==> syscall(d, t).time >= t) &&
      (forall t, n, c :: c >= 0 ==> boilerplate(t, n, c).time >= t) &&
      (forall name :: NonNegative(programTrace(name)))
    }

    /** The helper routines log clock-consistently (each line stamped with the clock it advances). */
    ghost predicate Clocked()
    {
      (forall d, t :: Chained(cpu(d, t).lines, t, cpu(d, t).time)) &&
      (forall d, t :: Chained(syscall(d, t).lines, t, syscall(d, t).time)) &&
      (forall t, n, c :: Chained(boilerplate(t, n, c).lines, t, boilerplate(t, n, c).time))
    }
  }
}
