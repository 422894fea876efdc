// PID allocation for FORK: one more than the largest PID visible at this
// recursion level (the running process and every PCB in its wait queue).

module Pids {
  import opened SimTypes

  function Max(a: nat, b: nat): nat { if a < b then b else a }

  /** Largest PID in the queue, 0 for an empty queue. */
  function MaxPid(q: seq<PCB>): nat
    decreases |q|
  {
    if q == [] then 0 else Max(MaxPid(q[..|q| - 1]), q[|q| - 1].pid)
  }

  /** The PID a FORK gives its child. */
  function FreshPid(q: seq<PCB>, current: PCB): nat
  {
    Max(MaxPid(q), current.pid) + 1
  }

  lemma {:induction false} MaxPidBounds(q: seq<PCB>)
    ensures forall p :: p in q ==> p.pid <= MaxPid(q)
    ensures q == [] || exists k :: 0 <= k < |q| && q[k].pid == MaxPid(q)
    decreases |q|
  {
    if q != [] {
      var init := q[..|q| - 1];
      MaxPidBounds(init);
      assert q == init + [q[|q| - 1]];
      if init != [] && MaxPid(q) == MaxPid(init) {
        var k :| 0 <= k < |init| && init[k].pid == MaxPid(init);
        assert q[k] == init[k];
      }
    }
  }

  /** The child's PID is positive and above the running process and every waiting one. */
  lemma FreshPidIsFresh(q: seq<PCB>, current: PCB)
    ensures FreshPid(q, current) >= 1
    ensures FreshPid(q, current) > current.pid
    ensures forall p :: p in q ==> p.pid < FreshPid(q, current)
  {
    MaxPidBounds(q);
  }

  /** ... and it is the least such value. */
  lemma FreshPidIsLeast(q: seq<PCB>, current: PCB, n: nat)
    requires n >= 1 && n > current.pid
    requires forall p :: p in q ==> p.pid < n
    ensures FreshPid(q, current) <= n
  {
    MaxPidBounds(q);
    if q != [] {
      var k :| 0 <= k < |q| && q[k].pid == MaxPid(q);
      assert q[k] in q;
    }
  }

  /** The child's PID depends only on which PCBs are visible, not on their order. */
  lemma FreshPidOrderIndependent(q1: seq<PCB>, q2: seq<PCB>, current: PCB)
    requires multiset(q1) == multiset(q2)
    ensures FreshPid(q1, current) == FreshPid(q2, current)
  {
    FreshPidIsFresh(q1, current);
    FreshPidIsFresh(q2, current);
    forall p | p in q2 ensures p.pid < FreshPid(q1, current) {
      assert p in multiset(q2);
    }
    forall p | p in q1 ensures p.pid < FreshPid(q2, current) {
      assert p in multiset(q1);
    }
    FreshPidIsLeast(q2, current, FreshPid(q1, current));
    FreshPidIsLeast(q1, current, FreshPid(q2, current));
  }

  /** The wait queue a forked child runs with: the parent's queue with the parent appended. */
  function ChildQueue(q: seq<PCB>, parent: PCB): seq<PCB>
  {
    q + [parent]
  }

  /** Every waiting process has a smaller PID than the running one. */
  ghost predicate Senior(q: seq<PCB>, running: PCB)
  {
    forall p :: p in q ==> p.pid < running.pid
  }

  /** A forked child is junior to everything in its queue, so PIDs stay unique down the call chain. */
  lemma ForkKeepsSenior(q: seq<PCB>, parent: PCB, child: PCB)
    requires child.pid == FreshPid(q, parent)
    ensures Senior(ChildQueue(q, parent), child)
    ensures child !in ChildQueue(q, parent)
  {
    FreshPidIsFresh(q, parent);
  }

  /** interrupts.cpp:46-50: the accumulator loop over the wait queue, then the running process. */
  method NextPid(q: seq<PCB>, current: PCB) returns (childPid: nat)
    ensures childPid == FreshPid(q, current)
    ensures childPid >= 1 && childPid > current.pid
    ensures forall p :: p in q ==> p.pid < childPid
  {
    childPid := 1;
    for k := 0 to |q|
      invariant childPid == MaxPid(q[..k]) + 1
    {
      assert q[..k + 1][..k] == q[..k];
      if q[k].pid >= childPid {
        childPid := q[k].pid + 1;
      }
    }
    assert q[..|q|] == q;
    if current.pid >= childPid {
      childPid := current.pid + 1;
    }
    FreshPidIsFresh(q, current);
  }

  /** The example of a queue holding PIDs 3, 1 and 4 in that order, with the running process at PID 0. */
  lemma FreshPidExample(a: PCB, b: PCB, c: PCB, current: PCB)
    requires a.pid == 3 && b.pid == 1 && c.pid == 4 && current.pid == 0
    ensures FreshPid([a, b, c], current) == 5
    ensures FreshPid([c, a, b], current) == 5
  {
    assert [a][..0] == [];
    assert [a, b][..1] == [a];
    assert [a, b, c][..2] == [a, b];
    assert MaxPid([a]) == Max(MaxPid([]), 3) == 3;
    assert MaxPid([a, b]) == Max(MaxPid([a]), 1) == 3;
    assert MaxPid([a, b, c]) == 4;
    FreshPidOrderIndependent([a, b, c], [c, a, b], current);
  }
}
