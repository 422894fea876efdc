// The cursor of the main loop of simulate_trace (interrupts.cpp:18, 129, 247):
// which lines of a trace the walk interprets, and in which order.

module Cursor {
  import opened SimTypes
  import opened ChildSplit

  /**
   * The cursor after interpreting line `i`, the loop's increment included:
   * EXEC breaks out of the loop, FORK jumps past the line its scan stopped
   * at, every other line moves on by one.
   */
  function NextCursor(trace: seq<Event>, i: nat): (n: nat)
    requires i < |trace|
    ensures i < n <= |trace|
  {
    match trace[i].activity
    case EXEC => |trace|
    case FORK => ParentIndexAfterFork(trace, i); Split(trace, i).parentIndex + 1
    case _ => i + 1
  }

  /** The same with the scan as interrupts.cpp:103 writes it (`parent_index` starting at 0). */
  function NextCursorAsWritten(trace: seq<Event>, i: nat): nat
    requires i < |trace|
  {
    match trace[i].activity
    case EXEC => |trace|
    case FORK => SplitAsWritten(trace, i).parentIndex + 1
    case _ => i + 1
  }

  /** The lines the walk interprets from line `i` on, in the order it interprets them. */
  function Visits(trace: seq<Event>, i: nat): (r: seq<nat>)
    ensures forall k :: 0 <= k < |r| ==> i <= r[k] < |trace|
    decreases |trace| - i
  {
    if i >= |trace| then [] else [i] + Visits(trace, NextCursor(trace, i))
  }

  /** The walk visits lines of the trace only, each at most once, in increasing order. */
  lemma {:induction false} VisitsOrdered(trace: seq<Event>, i: nat)
    ensures var r := Visits(trace, i);
      (forall k :: 0 <= k < |r| ==> i <= r[k] < |trace|) &&
      (forall a, b :: 0 <= a < b < |r| ==> r[a] < r[b]) &&
      (i < |trace| ==> r != [] && r[0] == i)
    decreases |trace| - i
  {
    if i < |trace| {
      VisitsOrdered(trace, NextCursor(trace, i));
    }
  }

  /** A trace with no FORK and no EXEC line. */
  predicate Plain(trace: seq<Event>)
  {
    forall e :: e in trace ==> e.activity != FORK && e.activity != EXEC
  }

  /** With no FORK and no EXEC, the walk interprets every line from `i` on, once each, in trace order. */
  lemma {:induction false} VisitsEveryLine(trace: seq<Event>, i: nat)
    requires Plain(trace) && i <= |trace|
    ensures Visits(trace, i) == seq(|trace| - i, k => i + k)
    decreases |trace| - i
  {
    if i < |trace| {
      assert trace[i] in trace;
      assert NextCursor(trace, i) == i + 1;
      VisitsEveryLine(trace, i + 1);
      var rest := seq(|trace| - (i + 1), k => i + 1 + k);
      var all := seq(|trace| - i, k => i + k);
      assert [i] + rest == all by {
        forall k | 0 <= k < |all| ensures ([i] + rest)[k] == all[k] {
          if k > 0 {
            assert ([i] + rest)[k] == rest[k - 1];
          }
        }
      }
    }
  }

  /** Nothing after an EXEC is interpreted: an EXEC line, once reached, is the last line the walk visits. */
  lemma {:induction false} ExecEndsWalk(trace: seq<Event>, i: nat, k: nat)
    requires k < |Visits(trace, i)|
    ensures Visits(trace, i)[k] < |trace|
    ensures trace[Visits(trace, i)[k]].activity == EXEC ==> k == |Visits(trace, i)| - 1
    decreases |trace| - i
  {
    var v := Visits(trace, i);
    VisitsOrdered(trace, i);
    if k == 0 {
      assert v[0] == i;
      if trace[i].activity == EXEC {
        assert Visits(trace, NextCursor(trace, i)) == [];
      }
    } else {
      var rest := Visits(trace, NextCursor(trace, i));
      assert v == [i] + rest;
      assert v[k] == rest[k - 1];
      ExecEndsWalk(trace, NextCursor(trace, i), k - 1);
    }
  }

  /** The initial value of `parent_index` matters only when no IF_PARENT follows. */
  lemma {:induction false} ScanInitialIndex(trace: seq<Event>, j: nat, st: ScanState, p: nat)
    ensures Scan(trace, j, st.(parentIndex := p)).child == Scan(trace, j, st).child
    ensures HasIfParent(trace, j) ==>
      Scan(trace, j, st.(parentIndex := p)).parentIndex == Scan(trace, j, st).parentIndex
    decreases |trace| - j
  {
    if j < |trace| {
      var st' := st.(parentIndex := p);
      var (n1, s1) := ScanStep(st, trace[j], j);
      var (n2, s2) := ScanStep(st', trace[j], j);
      if trace[j].activity == IF_PARENT {
        assert n1 == n2;
      } else {
        assert n2 == n1.(parentIndex := p);
        ScanInitialIndex(trace, j + 1, n1, p);
        if HasIfParent(trace, j) {
          var k :| j <= k < |trace| && trace[k].activity == IF_PARENT;
          assert k != j;
          assert HasIfParent(trace, j + 1);
        }
      }
    }
  }

  /** The as-written scan and the model's agree whenever an IF_PARENT follows the FORK. */
  lemma AsWrittenAgreesWithIfParent(trace: seq<Event>, i: nat)
    requires i < |trace| && HasIfParent(trace, i)
    ensures SplitAsWritten(trace, i).child == Split(trace, i).child
    ensures NextCursorAsWritten(trace, i) == NextCursor(trace, i)
  {
    ScanInitialIndex(trace, i, ScanState(true, false, i, []), 0);
    assert ScanState(true, false, i, []).(parentIndex := 0) == ScanState(true, false, 0, []);
  }

  /**
   * As written, a FORK with no IF_PARENT after it sends the cursor back to
   * line 1, so the walk goes on from line 1 wherever the FORK was; a FORK at
   * line 1 is reached again forever (`AsWrittenForkLoops`).
   */
  lemma AsWrittenForkRewinds(trace: seq<Event>, i: nat)
    requires i < |trace| && trace[i].activity == FORK
    requires !HasIfParent(trace, i + 1)
    ensures NextCursorAsWritten(trace, i) == 1
    ensures NextCursor(trace, i) == i + 1
  {
    var init := ScanState(true, false, 0, []);
    ForkLineIsInert(trace, i, init);
    ScanParentIndex(trace, i + 1, init);
    ParentIndexAfterFork(trace, i);
  }

  /** The trace `CPU, 10` then `FORK, 2`: as written, the cursor returns to the FORK forever. */
  lemma AsWrittenForkLoops(n: string)
    ensures var t := [Event(CPU, 10, n), Event(FORK, 2, n)];
      NextCursorAsWritten(t, 1) == 1 && Visits(t, 0) == [0, 1]
  {
    var t := [Event(CPU, 10, n), Event(FORK, 2, n)];
    assert !HasIfParent(t, 2);
    AsWrittenForkRewinds(t, 1);
    assert Visits(t, 2) == [];
    assert Visits(t, 1) == [1] + Visits(t, 2);
  }
}
