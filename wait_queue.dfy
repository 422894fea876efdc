// The wait queue as EXEC prunes it (interrupts.cpp:229-234) and as both
// FORK and EXEC list it in a status snapshot (interrupts.cpp:87-91, 205-209).

module WaitQueue {
  import opened SimTypes
  import opened Pids

  /** The queue with every PCB carrying `pid` dropped, order preserved. */
  function Without(q: seq<PCB>, pid: nat): seq<PCB>
    decreases |q|
  {
    if q == [] then []
    else Without(q[..|q| - 1], pid) + (if q[|q| - 1].pid != pid then [q[|q| - 1]] else [])
  }

  /** No entry with the removed PID survives, and every other entry does. */
  lemma {:induction false} WithoutMembers(q: seq<PCB>, pid: nat)
    ensures forall p :: p in Without(q, pid) <==> p in q && p.pid != pid
    decreases |q|
  {
    if q != [] {
      WithoutMembers(q[..|q| - 1], pid);
      assert q == q[..|q| - 1] + [q[|q| - 1]];
    }
  }

  /** The surviving entries keep their multiplicity. */
  lemma {:induction false} WithoutCounts(q: seq<PCB>, pid: nat)
    ensures forall p: PCB :: p.pid != pid ==> multiset(Without(q, pid))[p] == multiset(q)[p]
    ensures |Without(q, pid)| <= |q|
    decreases |q|
  {
    if q != [] {
      WithoutCounts(q[..|q| - 1], pid);
      assert q == q[..|q| - 1] + [q[|q| - 1]];
    }
  }

  /** Pruning distributes over concatenation, so the surviving entries keep their relative order. */
  lemma {:induction false} WithoutAppend(a: seq<PCB>, b: seq<PCB>, pid: nat)
    ensures Without(a + b, pid) == Without(a, pid) + Without(b, pid)
    decreases |b|
  {
    if b == [] {
      assert a + b == a;
    } else {
      var b0 := b[..|b| - 1];
      WithoutAppend(a, b0, pid);
      assert (a + b)[..|a + b| - 1] == a + b0;
    }
  }

  /** When every waiting PID is below the running one, pruning the running PID changes nothing. */
  lemma {:induction false} WithoutJuniorIsIdentity(q: seq<PCB>, running: PCB)
    requires Senior(q, running)
    ensures Without(q, running.pid) == q
    decreases |q|
  {
    if q != [] {
      assert q[|q| - 1] in q;
      WithoutJuniorIsIdentity(q[..|q| - 1], running);
      assert q == q[..|q| - 1] + [q[|q| - 1]];
    }
  }

  /** The process under a new image keeps its PID, so the pruned queue stays senior to it. */
  lemma ExecKeepsSenior(q: seq<PCB>, running: PCB, image: PCB)
    requires Senior(q, running)
    requires image.pid == running.pid
    ensures Senior(Without(q, running.pid), image)
  {
    WithoutMembers(q, running.pid);
  }

  /** interrupts.cpp:229-234: the accumulator loop that builds the EXEC wait queue. */
  method FilterQueue(q: seq<PCB>, pid: nat) returns (r: seq<PCB>)
    ensures r == Without(q, pid)
    ensures forall p :: p in r <==> p in q && p.pid != pid
  {
    r := [];
    for k := 0 to |q|
      invariant r == Without(q[..k], pid)
    {
      assert q[..k + 1][..k] == q[..k];
      if q[k].pid != pid {
        r := r + [q[k]];
      }
    }
    assert q[..|q|] == q;
    WithoutMembers(q, pid);
  }

  /** The status-table row of a waiting PCB. */
  function WaitingRow(p: PCB): Row
  {
    Row(p.pid, p.programName, p.partition, p.size, Waiting)
  }

  /** The status-table row of the running PCB. */
  function RunningRow(p: PCB): Row
  {
    Row(p.pid, p.programName, p.partition, p.size, Running)
  }

  /** The rows listing a wait queue in a status snapshot. */
  function WaitingTable(q: seq<PCB>): seq<Row>
  {
    seq(|q|, k requires 0 <= k < |q| => WaitingRow(q[k]))
  }

  /** The rows listing a wait queue in a status snapshot: one per PCB, in queue order, all waiting. */
  method WaitingRows(q: seq<PCB>) returns (rows: seq<Row>)
    ensures rows == WaitingTable(q)
    ensures |rows| == |q|
    ensures forall k :: 0 <= k < |q| ==> rows[k] == WaitingRow(q[k])
  {
    rows := [];
    for k := 0 to |q|
      invariant |rows| == k
      invariant forall m :: 0 <= m < k ==> rows[m] == WaitingRow(q[m])
    {
      rows := rows + [WaitingRow(q[k])];
    }
  }
}
