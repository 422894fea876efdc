// The FORK split scan (interrupts.cpp:100-129): a forward walk from the FORK
// line that collects the child's sub-trace and finds where the parent resumes,
// driven by the `skip` / `execFlag` state machine over the markers IF_CHILD,
// IF_PARENT and ENDIF.

module ChildSplit {
  import opened SimTypes

  /** The scan's variables: `skip`, `exec_flag`, `parent_index` and the collected `child_trace`. */
  datatype ScanState = ScanState(skip: bool, execFlag: bool, parentIndex: nat, child: seq<Event>)

  /** One iteration of the scan on line `j`; the boolean says whether the loop breaks. */
  function ScanStep(st: ScanState, e: Event, j: nat): (ScanState, bool)
  {
    if st.skip && e.activity == IF_CHILD then (st.(skip := false), false)
    else if e.activity == IF_PARENT then (st.(skip := true, parentIndex := j), st.execFlag)
    else if st.skip && e.activity == ENDIF then (st.(skip := false), false)
    else if !st.skip && e.activity == EXEC then (st.(skip := true, execFlag := true, child := st.child + [e]), false)
    else if !st.skip then (st.(child := st.child + [e]), false)
    else (st, false)
  }

  /** The scan from line `j` to the end of the trace or the first break. */
  function Scan(trace: seq<Event>, j: nat, st: ScanState): ScanState
    decreases |trace| - j
  {
    if j >= |trace| then st
    else
      var (next, stop) := ScanStep(st, trace[j], j);
      if stop then next else Scan(trace, j + 1, next)
  }

  /** The scan as the model runs it: `parent_index` starts at the FORK's own index. */
  function Split(trace: seq<Event>, i: nat): ScanState
  {
    Scan(trace, i, ScanState(true, false, i, []))
  }

  /** The scan as interrupts.cpp:103 writes it: `parent_index` starts at 0. */
  function SplitAsWritten(trace: seq<Event>, i: nat): ScanState
  {
    Scan(trace, i, ScanState(true, false, 0, []))
  }

  predicate HasIfParent(trace: seq<Event>, from: nat)
  {
    exists k :: from <= k < |trace| && trace[k].activity == IF_PARENT
  }

  /**
   * `a` is `b` with some lines left out and the rest in their original order,
   * decided from the last element backwards.
   */
  predicate IsSubseq(a: seq<Event>, b: seq<Event>)
    decreases |b|
  {
    if a == [] then true
    else if b == [] then false
    else (a[|a| - 1] == b[|b| - 1] && IsSubseq(a[..|a| - 1], b[..|b| - 1])) || IsSubseq(a, b[..|b| - 1])
  }

  lemma SubseqSkip(a: seq<Event>, b: seq<Event>, x: Event)
    requires IsSubseq(a, b)
    ensures IsSubseq(a, b + [x])
  {
    assert (b + [x])[..|b|] == b;
  }

  lemma SubseqTake(a: seq<Event>, b: seq<Event>, x: Event)
    requires IsSubseq(a, b)
    ensures IsSubseq(a + [x], b + [x])
  {
    assert (a + [x])[..|a|] == a;
    assert (b + [x])[..|b|] == b;
  }

  /** A subsequence is no longer than the sequence it is drawn from, and draws on its elements only. */
  lemma {:induction false} SubseqShape(a: seq<Event>, b: seq<Event>)
    requires IsSubseq(a, b)
    ensures |a| <= |b|
    ensures multiset(a) <= multiset(b)
    decreases |b|
  {
    if a != [] {
      var b0 := b[..|b| - 1];
      assert b == b0 + [b[|b| - 1]];
      if a[|a| - 1] == b[|b| - 1] && IsSubseq(a[..|a| - 1], b0) {
        SubseqShape(a[..|a| - 1], b0);
        assert a == a[..|a| - 1] + [a[|a| - 1]];
      } else {
        SubseqShape(a, b0);
      }
    }
  }

  /** One step of the scan keeps the collected lines a subsequence of the lines seen so far. */
  lemma StepKeepsSubseq(trace: seq<Event>, lo: nat, j: nat, st: ScanState)
    requires lo <= j < |trace|
    requires IsSubseq(st.child, trace[lo..j])
    ensures IsSubseq(ScanStep(st, trace[j], j).0.child, trace[lo..j + 1])
  {
    assert trace[lo..j + 1] == trace[lo..j] + [trace[j]];
    var next := ScanStep(st, trace[j], j).0;
    if next.child == st.child {
      SubseqSkip(st.child, trace[lo..j], trace[j]);
    } else {
      assert next.child == st.child + [trace[j]];
      SubseqTake(st.child, trace[lo..j], trace[j]);
    }
  }

  lemma {:induction false} SubseqWiden(a: seq<Event>, trace: seq<Event>, lo: nat, j: nat)
    requires lo <= j <= |trace|
    requires IsSubseq(a, trace[lo..j])
    ensures IsSubseq(a, trace[lo..])
    decreases |trace| - j
  {
    if j < |trace| {
      assert trace[lo..j + 1] == trace[lo..j] + [trace[j]];
      SubseqSkip(a, trace[lo..j], trace[j]);
      SubseqWiden(a, trace, lo, j + 1);
    } else {
      assert trace[lo..j] == trace[lo..];
    }
  }

  /** The collected child trace keeps the lines it takes in their original order. */
  lemma {:induction false} ScanSubseq(trace: seq<Event>, lo: nat, j: nat, st: ScanState)
    requires lo <= j <= |trace|
    requires IsSubseq(st.child, trace[lo..j])
    ensures IsSubseq(Scan(trace, j, st).child, trace[lo..])
    decreases |trace| - j
  {
    if j >= |trace| {
      SubseqWiden(st.child, trace, lo, j);
    } else {
      StepKeepsSubseq(trace, lo, j, st);
      var (next, stop) := ScanStep(st, trace[j], j);
      if stop {
        SubseqWiden(next.child, trace, lo, j + 1);
      } else {
        ScanSubseq(trace, lo, j + 1, next);
      }
    }
  }

  /** Where the scan leaves `parent_index`: untouched when no IF_PARENT follows, else on an IF_PARENT line. */
  lemma {:induction false} ScanParentIndex(trace: seq<Event>, j: nat, st: ScanState)
    ensures var r := Scan(trace, j, st);
      if HasIfParent(trace, j)
      then j <= r.parentIndex < |trace| && trace[r.parentIndex].activity == IF_PARENT
      else r.parentIndex == st.parentIndex
    decreases |trace| - j
  {
    if j < |trace| {
      var (next, stop) := ScanStep(st, trace[j], j);
      ScanParentIndex(trace, j + 1, next);
      if trace[j].activity != IF_PARENT {
        assert HasIfParent(trace, j) <==> HasIfParent(trace, j + 1) by {
          if HasIfParent(trace, j) {
            var k :| j <= k < |trace| && trace[k].activity == IF_PARENT;
            assert k != j;
          }
        }
      } else {
        assert HasIfParent(trace, j);
      }
    }
  }

  /** The FORK line itself leaves the scan state as it is. */
  lemma ForkLineIsInert(trace: seq<Event>, i: nat, st: ScanState)
    requires i < |trace| && trace[i].activity == FORK
    requires st.skip
    ensures Scan(trace, i, st) == Scan(trace, i + 1, st)
  {
  }

  /**
   * The child trace is drawn from the lines after the FORK in their original
   * order, so it is strictly shorter than the trace it comes from.
   */
  lemma ChildIsSubsequence(trace: seq<Event>, i: nat)
    requires i < |trace| && trace[i].activity == FORK
    ensures IsSubseq(Split(trace, i).child, trace[i + 1..])
    ensures multiset(Split(trace, i).child) <= multiset(trace[i + 1..])
    ensures |Split(trace, i).child| < |trace|
    ensures forall e :: e in Split(trace, i).child ==> e in trace
  {
    var init := ScanState(true, false, i, []);
    ForkLineIsInert(trace, i, init);
    ScanSubseq(trace, i + 1, i + 1, init);
    SubseqShape(Split(trace, i).child, trace[i + 1..]);
    forall e | e in Split(trace, i).child ensures e in trace {
      assert e in multiset(Split(trace, i).child);
      assert e in multiset(trace[i + 1..]);
      assert e in trace[i + 1..];
    }
  }

  /**
   * Where the parent resumes: on the IF_PARENT line the scan stopped at when
   * one follows the FORK (strictly after it), and at the FORK itself when none
   * does, so the resume cursor `parentIndex + 1` always moves forward.
   */
  lemma ParentIndexAfterFork(trace: seq<Event>, i: nat)
    requires i < |trace| && trace[i].activity == FORK
    ensures var p := Split(trace, i).parentIndex;
      i <= p < |trace| &&
      (HasIfParent(trace, i + 1) ==> i < p && trace[p].activity == IF_PARENT) &&
      (!HasIfParent(trace, i + 1) ==> p == i)
  {
    var init := ScanState(true, false, i, []);
    ForkLineIsInert(trace, i, init);
    ScanParentIndex(trace, i + 1, init);
  }

  /** The scan elements kept for the child are lines of the trace, so they are as well formed as it. */
  lemma ChildWellFormed(trace: seq<Event>, i: nat, delays: seq<int>)
    requires i < |trace| && trace[i].activity == FORK
    requires WellFormed(trace, delays)
    ensures WellFormed(Split(trace, i).child, delays)
  {
    ChildIsSubsequence(trace, i);
  }

  /**
   * interrupts.cpp:100-128 as a loop; the FORK's own line is the first one
   * scanned, and `parentIndex` starts at the FORK's index rather than 0.
   */
  method SplitChildTrace(trace: seq<Event>, i: nat) returns (child: seq<Event>, parentIndex: nat)
    requires i < |trace|
    ensures child == Split(trace, i).child
    ensures parentIndex == Split(trace, i).parentIndex
  {
    child := [];
    var skip := true;
    var execFlag := false;
    parentIndex := i;
    var j := i;
    while j < |trace|
      invariant i <= j <= |trace|
      invariant Scan(trace, j, ScanState(skip, execFlag, parentIndex, child)) == Split(trace, i)
      decreases |trace| - j
    {
      var a := trace[j].activity;
      if skip && a == IF_CHILD {
        skip := false;
      } else if a == IF_PARENT {
        skip := true;
        parentIndex := j;
        if execFlag {
          break;
        }
      } else if skip && a == ENDIF {
        skip := false;
      } else if !skip && a == EXEC {
        skip := true;
        child := child + [trace[j]];
        execFlag := true;
      } else if !skip {
        child := child + [trace[j]];
      }
      j := j + 1;
    }
  }

  /** The worked example: FORK, IF_CHILD, CPU 5, IF_PARENT, CPU 7, ENDIF. */
  lemma SplitExample(n: string)
    ensures var t := [Event(FORK, 2, n), Event(IF_CHILD, 0, n), Event(CPU, 5, n),
                      Event(IF_PARENT, 0, n), Event(CPU, 7, n), Event(ENDIF, 0, n)];
      Split(t, 0).child == [Event(CPU, 5, n)] && Split(t, 0).parentIndex == 3
  {
    var t := [Event(FORK, 2, n), Event(IF_CHILD, 0, n), Event(CPU, 5, n),
              Event(IF_PARENT, 0, n), Event(CPU, 7, n), Event(ENDIF, 0, n)];
    var s0 := ScanState(true, false, 0, []);
    assert Scan(t, 0, s0) == Scan(t, 1, s0);
    var s2 := ScanState(false, false, 0, []);
    assert Scan(t, 1, s0) == Scan(t, 2, s2);
    var s3 := ScanState(false, false, 0, [Event(CPU, 5, n)]);
    assert s2.child + [t[2]] == s3.child;
    assert Scan(t, 2, s2) == Scan(t, 3, s3);
    var s4 := ScanState(true, false, 3, [Event(CPU, 5, n)]);
    assert Scan(t, 3, s3) == Scan(t, 4, s4);
    assert Scan(t, 4, s4) == Scan(t, 5, s4);
    var s6 := ScanState(false, false, 3, [Event(CPU, 5, n)]);
    assert Scan(t, 5, s4) == Scan(t, 6, s6);
  }
}
