/**
 * The reconciler of `compute_assignment` as the source writes it: two
 * arrays updated in place and a list of report lines that grows. Each
 * method is tied to the functional description in `Schedule`, whose
 * lemmas carry the properties of the report.
 */
module Reconciler {
  import opened Lines
  import opened PatchCost
  import opened Schedule

  /** The smallest ready orphan (`((counter == 0) & new_on_lhs).nonzero()[0]`), or -1. */
  method FirstReady(newOnLhs: array<bool>, counter: array<int>) returns (idx: int)
    requires newOnLhs.Length == counter.Length
    ensures idx == FirstReadyFrom(newOnLhs[..], counter[..], 0)
  {
    var k := 0;
    while k < counter.Length
      invariant 0 <= k <= counter.Length
      invariant FirstReadyFrom(newOnLhs[..], counter[..], k) == FirstReadyFrom(newOnLhs[..], counter[..], 0)
    {
      if counter[k] == 0 && newOnLhs[k] {
        return k;
      }
      k := k + 1;
    }
    return -1;
  }

  /** `lhs_prior_counter[from:] -= 1`. */
  method DecrementFrom(counter: array<int>, from: nat)
    modifies counter
    ensures counter[..] == DecFrom(old(counter[..]), from)
  {
    var k := from;
    while k < counter.Length
      invariant forall m :: 0 <= m < counter.Length ==>
        counter[m] == if from <= m < k then old(counter[m]) - 1 else old(counter[m])
    {
      counter[k] := counter[k] - 1;
      k := k + 1;
    }
  }

  /** Report orphan `idx`, clear its flag and count it as reported for the rows above it. */
  method ReportOrphan(newOnLhs: array<bool>, counter: array<int>, events: seq<Event>, idx: nat, ghost t: Progress)
    returns (events': seq<Event>)
    requires idx < |t.done| == |t.nol|
    requires t.events == events && t.nol == newOnLhs[..] && t.ctr == counter[..]
    modifies newOnLhs, counter
    ensures var u := AfterOrphan(t, idx);
      events' == u.events && newOnLhs[..] == u.nol && counter[..] == u.ctr
  {
    events' := events + [Orphan(idx)];
    newOnLhs[idx] := false;
    DecrementFrom(counter, idx + 1);
  }

  /**
   * `process_lhs_orphans`: report ready orphans, smallest row first, until
   * none is ready. The ghost `s` is the reconciler's state that the arrays
   * and the events hold on entry, after `j` columns of B; the source's
   * assertion that no counter is negative is checked at every scan.
   */
  method ProcessLhsOrphans(newOnLhs: array<bool>, counter: array<int>, events: seq<Event>,
                           ghost A: seq<seq<Line>>, ghost B: seq<seq<Line>>, ghost udiff: UnifiedDiff,
                           ghost lhs: seq<nat>, ghost rhs: seq<nat>, ghost j: nat, ghost s: Progress)
    returns (events': seq<Event>)
    requires Inv(A, B, udiff, lhs, rhs, j, s)
    requires s.events == events && s.nol == newOnLhs[..] && s.ctr == counter[..]
    modifies newOnLhs, counter
    ensures events' == Drain(s).events && newOnLhs[..] == Drain(s).nol && counter[..] == Drain(s).ctr
  {
    events' := events;
    ghost var t := s;
    while true
      invariant Inv(A, B, udiff, lhs, rhs, j, t)
      invariant t.events == events' && t.nol == newOnLhs[..] && t.ctr == counter[..]
      invariant Drain(t) == Drain(s)
      decreases Pending(t.nol)
    {
      assert forall k :: 0 <= k < counter.Length ==> counter[k] >= 0 by {
        CountersNonNegative(A, B, udiff, lhs, rhs, j, t);
        assert forall k :: 0 <= k < counter.Length ==> counter[k] == t.ctr[k];
      }
      var idx := FirstReady(newOnLhs, counter);
      if idx < 0 {
        break;
      }
      PendingClear(t.nol, idx);
      EmitOrphanStep(A, B, udiff, lhs, rhs, j, t, idx);
      events' := ReportOrphan(newOnLhs, counter, events', idx, t);
      t := AfterOrphan(t, idx);
    }
  }

  /**
   * One pass of the loop over B: drain the ready orphans, then report
   * column `j` as matched to its A row (and count that row as reported) or
   * as created.
   */
  method HandleColumn(A: seq<seq<Line>>, B: seq<seq<Line>>, rhs: seq<nat>, udiff: UnifiedDiff, j: nat,
                      newOnLhs: array<bool>, counter: array<int>, events: seq<Event>,
                      ghost lhs: seq<nat>, ghost s: Progress)
    returns (events': seq<Event>)
    requires IsBijection(lhs, rhs, |A| + |B|) && j < |B| && s == Run(A, B, udiff, lhs, rhs, j)
    requires s.events == events && s.nol == newOnLhs[..] && s.ctr == counter[..]
    modifies newOnLhs, counter
    ensures var r := Column(A, B, rhs, udiff, j, s);
      events' == r.events && newOnLhs[..] == r.nol && counter[..] == r.ctr
  {
    RunInv(A, B, udiff, lhs, rhs, j);
    events' := ProcessLhsOrphans(newOnLhs, counter, events, A, B, udiff, lhs, rhs, j, s);
    var i := rhs[j];
    if i < |A| {
      var hasDiff := udiff(A[i], B[j]) != [];
      events' := events' + [Matched(i, j, hasDiff)];
      DecrementFrom(counter, i + 1);
    } else {
      events' := events' + [Created(j)];
    }
  }

  /** The last `process_lhs_orphans` after the loop over B, which completes the report. */
  method FinalFlush(A: seq<seq<Line>>, B: seq<seq<Line>>, udiff: UnifiedDiff,
                    newOnLhs: array<bool>, counter: array<int>, events: seq<Event>,
                    ghost lhs: seq<nat>, ghost rhs: seq<nat>, ghost s: Progress)
    returns (events': seq<Event>)
    requires IsBijection(lhs, rhs, |A| + |B|) && s == Run(A, B, udiff, lhs, rhs, |B|)
    requires s.events == events && s.nol == newOnLhs[..] && s.ctr == counter[..]
    modifies newOnLhs, counter
    ensures events' == Drain(s).events
    ensures Scheduled(A, B, udiff, lhs, rhs, events')
  {
    RunInv(A, B, udiff, lhs, rhs, |B|);
    events' := ProcessLhsOrphans(newOnLhs, counter, events, A, B, udiff, lhs, rhs, |B|, s);
    RunReport(A, B, udiff, lhs, rhs);
  }

  /**
   * The loop over B (each column preceded by draining the ready orphans),
   * from the initial flags and counters.
   */
  method ColumnLoop(A: seq<seq<Line>>, B: seq<seq<Line>>, lhs: seq<nat>, rhs: seq<nat>, udiff: UnifiedDiff,
                    newOnLhs: array<bool>, counter: array<int>)
    returns (events: seq<Event>)
    requires IsBijection(lhs, rhs, |A| + |B|)
    requires newOnLhs[..] == Start(lhs, |A|, |B|).nol && counter[..] == Start(lhs, |A|, |B|).ctr
    modifies newOnLhs, counter
    ensures var s := Run(A, B, udiff, lhs, rhs, |B|);
      events == s.events && newOnLhs[..] == s.nol && counter[..] == s.ctr
  {
    events := [];
    for j := 0 to |B|
      invariant var s := Run(A, B, udiff, lhs, rhs, j);
        events == s.events && newOnLhs[..] == s.nol && counter[..] == s.ctr
    {
      events := HandleColumn(A, B, rhs, udiff, j, newOnLhs, counter, events, lhs, Run(A, B, udiff, lhs, rhs, j));
      RunStep(A, B, udiff, lhs, rhs, j, j + 1);
    }
  }

  /**
   * The report of `compute_assignment`: B-driven lines in B's order, each
   * real A row exactly once, orphans in increasing row order, each as soon
   * as all lower rows are reported and never earlier.
   */
  method Reconcile(A: seq<seq<Line>>, B: seq<seq<Line>>, lhs: seq<nat>, rhs: seq<nat>, udiff: UnifiedDiff)
    returns (events: seq<Event>)
    requires IsBijection(lhs, rhs, |A| + |B|)
    ensures events == Drain(Run(A, B, udiff, lhs, rhs, |B|)).events
    ensures Scheduled(A, B, udiff, lhs, rhs, events)
  {
    var la, lb := |A|, |B|;
    var newOnLhs := new bool[la](i => 0 <= i < la && lhs[i] >= lb);
    var counter := new int[la](i => i);
    assert newOnLhs[..] == Start(lhs, la, lb).nol && counter[..] == Start(lhs, la, lb).ctr;
    events := ColumnLoop(A, B, lhs, rhs, udiff, newOnLhs, counter);
    events := FinalFlush(A, B, udiff, newOnLhs, counter, events, lhs, rhs, Run(A, B, udiff, lhs, rhs, lb));
  }
}
