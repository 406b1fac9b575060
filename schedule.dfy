/**
 * The reconciler of `compute_assignment` (git-tbdiff.py:211-252).
 *
 * Given the assignment of the (|A|+|B|)-square cost matrix, `lhs` (row to
 * column) and `rhs` (column to row), the source prints one line per B
 * patch in B's order; before each of them, and once more at the end, it
 * prints every A patch without a counterpart in B (an orphan) whose lower
 * A rows have all been printed already. Readiness is kept in two arrays:
 * `new_on_lhs[i]` (row `i` is an orphan not yet printed) and
 * `lhs_prior_counter[i]` (how many rows below `i` are not yet printed).
 *
 * Printing is modelled as appending to a sequence of events.
 */
module Schedule {
  import opened Lines
  import opened PatchCost

  /** One line of the report. */
  datatype Event =
    | Orphan(i: nat)                          // A row `i` has no counterpart in B
    | Matched(i: nat, j: nat, hasDiff: bool)  // A row `i` was assigned B column `j`
    | Created(j: nat)                         // B column `j` has no counterpart in A

  /** `lhs` and `rhs` are mutually inverse permutations of `0..n-1`. */
  predicate IsBijection(lhs: seq<nat>, rhs: seq<nat>, n: nat) {
    && |lhs| == n && |rhs| == n
    && (forall r :: 0 <= r < n ==> lhs[r] < n && rhs[lhs[r]] == r)
    && (forall c :: 0 <= c < n ==> rhs[c] < n && lhs[rhs[c]] == c)
  }

  predicate NoDup(s: seq<nat>) {
    forall p, q :: 0 <= p < q < |s| ==> s[p] != s[q]
  }

  // ---------------------------------------------------------------------
  // Views of an event sequence (each defined from the back, the way the
  // events are appended)

  function RowOf(e: Event): seq<nat> {
    match e
    case Orphan(i) => [i]
    case Matched(i, _, _) => [i]
    case Created(_) => []
  }

  /** The A rows the events report, in order. */
  function Rows(E: seq<Event>): seq<nat> {
    if E == [] then [] else Rows(E[..|E| - 1]) + RowOf(E[|E| - 1])
  }

  /** The events driven by B (matches and creations), in order. */
  function BEvents(E: seq<Event>): seq<Event> {
    if E == [] then []
    else BEvents(E[..|E| - 1]) + (if E[|E| - 1].Orphan? then [] else [E[|E| - 1]])
  }

  /** The rows reported as orphans, in order. */
  function OrphansOf(E: seq<Event>): seq<nat> {
    if E == [] then []
    else OrphansOf(E[..|E| - 1]) + (if E[|E| - 1].Orphan? then [E[|E| - 1].i] else [])
  }

  // ---------------------------------------------------------------------
  // What the report must be

  /** The line the source prints for B column `j`: a match if `rhs[j]` is a real A row. */
  function BEventFor(A: seq<seq<Line>>, B: seq<seq<Line>>, rhs: seq<nat>, udiff: UnifiedDiff, j: nat): (r: Event)
    requires j < |B| <= |rhs|
    ensures r.Matched? <==> rhs[j] < |A|
    ensures !r.Orphan? && r.j == j
    ensures r.Matched? ==> r.i == rhs[j] && (r.hasDiff <==> udiff(A[r.i], B[j]) != [])
  {
    var i := rhs[j];
    if i < |A| then Matched(i, j, udiff(A[i], B[j]) != []) else Created(j)
  }

  /** The B-driven lines for columns `0..k-1`, in column order. */
  function BPlan(A: seq<seq<Line>>, B: seq<seq<Line>>, rhs: seq<nat>, udiff: UnifiedDiff, k: nat): seq<Event>
    requires k <= |B| <= |rhs|
  {
    if k == 0 then [] else BPlan(A, B, rhs, udiff, k - 1) + [BEventFor(A, B, rhs, udiff, k - 1)]
  }

  /** The orphan rows below `k` (assigned a virtual column), increasing. */
  function OrphanRowsBelow(lhs: seq<nat>, lb: nat, k: nat): seq<nat>
    requires k <= |lhs|
  {
    if k == 0 then []
    else OrphanRowsBelow(lhs, lb, k - 1) + (if lhs[k - 1] >= lb then [k - 1] else [])
  }

  /** No orphan that is still unreported has all of its lower rows in `R`. */
  ghost predicate Drained(R: seq<nat>, lhs: seq<nat>, la: nat, lb: nat)
    requires la <= |lhs|
  {
    forall i :: 0 <= i < la && lhs[i] >= lb && i !in R ==> exists k :: 0 <= k < i && k !in R
  }

  /** Every row below `n` is in `R`. */
  ghost predicate Covers(R: seq<nat>, n: nat) {
    forall k :: 0 <= k < n ==> k in R
  }

  /**
   * An orphan is reported only after every lower A row has been (stated for
   * the last event and, recursively, for every shorter prefix).
   */
  ghost predicate ReadyOrder(E: seq<Event>) {
    E == [] ||
    (&& ReadyOrder(E[..|E| - 1])
     && (E[|E| - 1].Orphan? ==> Covers(Rows(E[..|E| - 1]), E[|E| - 1].i)))
  }

  /**
   * Every B-driven line comes only once all orphans ready before it have
   * been reported (stated for the last event and every shorter prefix).
   */
  ghost predicate Prompt(E: seq<Event>, lhs: seq<nat>, la: nat, lb: nat)
    requires la <= |lhs|
  {
    E == [] ||
    (&& Prompt(E[..|E| - 1], lhs, la, lb)
     && (!E[|E| - 1].Orphan? ==> Drained(Rows(E[..|E| - 1]), lhs, la, lb)))
  }

  /** `ReadyOrder` at every position: orphan `E[p]` follows all rows below it. */
  lemma {:induction false} ReadyOrderAt(E: seq<Event>, p: nat, k: nat)
    requires ReadyOrder(E) && p < |E| && E[p].Orphan? && k < E[p].i
    ensures k in Rows(E[..p])
    decreases |E|
  {
    var E' := E[..|E| - 1];
    if p < |E| - 1 {
      assert E'[p] == E[p] && E'[..p] == E[..p];
      ReadyOrderAt(E', p, k);
    }
  }

  /** `Prompt` at every position: before each B-driven line no ready orphan is left waiting. */
  lemma {:induction false} PromptAt(E: seq<Event>, lhs: seq<nat>, la: nat, lb: nat, q: nat)
    requires la <= |lhs| && Prompt(E, lhs, la, lb) && q < |E| && !E[q].Orphan?
    ensures Drained(Rows(E[..q]), lhs, la, lb)
    decreases |E|
  {
    var E' := E[..|E| - 1];
    if q < |E| - 1 {
      assert E'[q] == E[q] && E'[..q] == E[..q];
      PromptAt(E', lhs, la, lb, q);
    }
  }

  /**
   * The report the source promises for the assignment `lhs`/`rhs`: the
   * B-driven lines in B's order, the orphans in increasing row order, every
   * A row reported exactly once, each orphan only after all lower rows and
   * no B-driven line while an orphan is ready.
   */
  ghost predicate Scheduled(A: seq<seq<Line>>, B: seq<seq<Line>>, udiff: UnifiedDiff, lhs: seq<nat>, rhs: seq<nat>,
                            E: seq<Event>)
    requires |A| <= |lhs| && |B| <= |rhs|
  {
    && BEvents(E) == BPlan(A, B, rhs, udiff, |B|)
    && OrphansOf(E) == OrphanRowsBelow(lhs, |B|, |A|)
    && (forall i :: 0 <= i < |A| ==> i in Rows(E))
    && (forall x :: x in Rows(E) ==> x < |A|)
    && NoDup(Rows(E))
    && ReadyOrder(E)
    && Prompt(E, lhs, |A|, |B|)
  }

  // ---------------------------------------------------------------------
  // Bookkeeping

  /** How many of the rows below `k` have been reported. */
  function NumDone(done: seq<bool>, k: nat): nat
    requires k <= |done|
  {
    if k == 0 then 0 else NumDone(done, k - 1) + (if done[k - 1] then 1 else 0)
  }

  /** `lhs_prior_counter[from:] -= 1` as a function of the counters. */
  function DecFrom(ctr: seq<int>, from: nat): (r: seq<int>)
    ensures |r| == |ctr|
  {
    seq(|ctr|, k requires 0 <= k < |ctr| => if k >= from then ctr[k] - 1 else ctr[k])
  }

  /** The array lengths and the shape of the assignment. */
  ghost predicate Shape(A: seq<seq<Line>>, B: seq<seq<Line>>, lhs: seq<nat>, rhs: seq<nat>,
                        j: nat, done: seq<bool>, nol: seq<bool>, ctr: seq<int>)
  {
    && |lhs| == |A| + |B| && |rhs| == |A| + |B|
    && j <= |B|
    && |done| == |A| && |nol| == |A| && |ctr| == |A|
  }

  /** `done` records exactly the rows the events report, each reported once. */
  ghost predicate Reported(E: seq<Event>, done: seq<bool>) {
    && (forall i :: 0 <= i < |done| ==> (done[i] <==> i in Rows(E)))
    && (forall x :: x in Rows(E) ==> x < |done|)
    && NoDup(Rows(E))
  }

  /** `new_on_lhs[i]`: row `i` is an orphan not yet reported. */
  ghost predicate Flags(lhs: seq<nat>, lb: nat, done: seq<bool>, nol: seq<bool>)
    requires |done| == |nol| <= |lhs|
  {
    forall i :: 0 <= i < |done| ==> nol[i] == (lhs[i] >= lb && !done[i])
  }

  /** `lhs_prior_counter[k]`: the number of rows below `k` not yet reported. */
  ghost predicate Counters(done: seq<bool>, ctr: seq<int>)
    requires |done| == |ctr|
  {
    forall k :: 0 <= k < |done| ==> ctr[k] == k - NumDone(done, k)
  }

  /** A matched row is reported exactly when its B column has been handled. */
  ghost predicate MatchedProgress(lhs: seq<nat>, lb: nat, done: seq<bool>, j: nat)
    requires |done| <= |lhs|
  {
    forall i :: 0 <= i < |done| && lhs[i] < lb ==> (done[i] <==> lhs[i] < j)
  }

  /** The orphans reported so far are those below `om`, and all rows below `om` are reported. */
  ghost predicate OrphanProgress(lhs: seq<nat>, lb: nat, E: seq<Event>, done: seq<bool>, om: nat)
    requires |done| <= |lhs|
  {
    && om <= |done|
    && OrphansOf(E) == OrphanRowsBelow(lhs, lb, om)
    && (forall i :: 0 <= i < om ==> done[i])
    && (forall i :: om <= i < |done| && lhs[i] >= lb ==> !done[i])
  }

  /**
   * The reconciler's state: the events so far, which A rows have been
   * reported (`done`, ghost), the contents of `new_on_lhs` and
   * `lhs_prior_counter`, and one past the last orphan reported (`om`).
   */
  datatype Progress = Progress(events: seq<Event>, done: seq<bool>, nol: seq<bool>, ctr: seq<int>, om: nat)

  /**
   * The state before anything is reported: no row reported, the flag set
   * exactly on the orphan rows, and each counter equal to the number of
   * unreported rows below it.
   */
  function Start(lhs: seq<nat>, la: nat, lb: nat): (r: Progress)
    requires la <= |lhs|
    ensures r.events == [] && r.om == 0
    ensures |r.done| == |r.nol| == |r.ctr| == la
    ensures forall i :: 0 <= i < la ==> !r.done[i]
    ensures Flags(lhs, lb, r.done, r.nol)
    ensures Counters(r.done, r.ctr)
  {
    NothingDoneCounters(la);
    Progress([], seq(la, _ => false), seq(la, i requires 0 <= i < la => lhs[i] >= lb), seq(la, i => i), 0)
  }

  /** The state after reporting orphan `idx`: the row is reported once more and its flag cleared. */
  function AfterOrphan(s: Progress, idx: nat): (r: Progress)
    requires idx < |s.done| && idx < |s.nol|
    ensures Rows(r.events) == Rows(s.events) + [idx]
    ensures OrphansOf(r.events) == OrphansOf(s.events) + [idx]
    ensures BEvents(r.events) == BEvents(s.events)
    ensures |r.done| == |s.done| && |r.nol| == |s.nol| && |r.ctr| == |s.ctr|
    ensures r.done[idx] && !r.nol[idx]
  {
    AppendViews(s.events, Orphan(idx));
    Progress(s.events + [Orphan(idx)], s.done[idx := true], s.nol[idx := false], DecFrom(s.ctr, idx + 1), idx + 1)
  }

  /**
   * The state after reporting the line for B column `j`: that line is the
   * next B-driven line, and a matched row is marked reported.
   */
  function AfterColumn(A: seq<seq<Line>>, B: seq<seq<Line>>, rhs: seq<nat>, udiff: UnifiedDiff, j: nat, s: Progress): (r: Progress)
    requires j < |B| <= |rhs| && |s.done| == |A|
    ensures BEvents(r.events) == BEvents(s.events) + [BEventFor(A, B, rhs, udiff, j)]
    ensures OrphansOf(r.events) == OrphansOf(s.events)
    ensures rhs[j] < |A| ==> Rows(r.events) == Rows(s.events) + [rhs[j]] && r.done == s.done[rhs[j] := true]
    ensures rhs[j] >= |A| ==> Rows(r.events) == Rows(s.events) && r.done == s.done
    ensures r.nol == s.nol && |r.ctr| == |s.ctr|
  {
    var i := rhs[j];
    var e := BEventFor(A, B, rhs, udiff, j);
    AppendViews(s.events, e);
    if i < |A| then Progress(s.events + [e], s.done[i := true], s.nol, DecFrom(s.ctr, i + 1), s.om)
    else Progress(s.events + [e], s.done, s.nol, s.ctr, s.om)
  }

  /** Row `k` is an orphan not yet reported whose lower rows all are. */
  predicate Ready(nol: seq<bool>, ctr: seq<int>, k: nat)
    requires k < |nol| == |ctr|
  {
    ctr[k] == 0 && nol[k]
  }

  /** The smallest ready row at or above `k`, or -1 if there is none. */
  function FirstReadyFrom(nol: seq<bool>, ctr: seq<int>, k: nat): (r: int)
    requires |nol| == |ctr| && k <= |nol|
    ensures r == -1 || (k <= r < |nol| && Ready(nol, ctr, r))
    ensures forall m :: k <= m < |nol| && (r == -1 || m < r) ==> !Ready(nol, ctr, m)
    decreases |nol| - k
  {
    if k == |nol| then -1
    else if Ready(nol, ctr, k) then k
    else FirstReadyFrom(nol, ctr, k + 1)
  }

  /** How many flags are set: the orphans still to be reported. */
  function Pending(nol: seq<bool>): nat {
    if nol == [] then 0 else Pending(nol[..|nol| - 1]) + (if nol[|nol| - 1] then 1 else 0)
  }

  lemma {:induction false} PendingClear(nol: seq<bool>, idx: nat)
    requires idx < |nol| && nol[idx]
    ensures Pending(nol[idx := false]) == Pending(nol) - 1
    decreases |nol|
  {
    var n' := nol[idx := false];
    if idx < |nol| - 1 {
      assert n'[..|nol| - 1] == nol[..|nol| - 1][idx := false];
      PendingClear(nol[..|nol| - 1], idx);
    } else {
      assert n'[..|nol| - 1] == nol[..|nol| - 1];
    }
  }

  /**
   * `process_lhs_orphans` as a function: report the smallest ready orphan
   * until none is ready.
   */
  function Drain(s: Progress): (r: Progress)
    requires |s.done| == |s.nol| == |s.ctr|
    ensures |r.done| == |r.nol| == |r.ctr| == |s.done|
    ensures FirstReadyFrom(r.nol, r.ctr, 0) == -1
    ensures s.events <= r.events
    ensures BEvents(r.events) == BEvents(s.events)
    decreases Pending(s.nol)
  {
    var idx := FirstReadyFrom(s.nol, s.ctr, 0);
    if idx < 0 then s
    else
      PendingClear(s.nol, idx);
      Drain(AfterOrphan(s, idx))
  }

  /** One pass of the column loop: drain the ready orphans, then report B column `j`. */
  function Column(A: seq<seq<Line>>, B: seq<seq<Line>>, rhs: seq<nat>, udiff: UnifiedDiff, j: nat, s: Progress): (r: Progress)
    requires j < |B| <= |rhs| && |s.done| == |s.nol| == |s.ctr| == |A|
    ensures |r.done| == |r.nol| == |r.ctr| == |A|
    ensures s.events < r.events
    ensures BEvents(r.events) == BEvents(s.events) + [BEventFor(A, B, rhs, udiff, j)]
  {
    AfterColumn(A, B, rhs, udiff, j, Drain(s))
  }

  /**
   * The reconciler's state once B columns `0..j-1` have been handled, each
   * preceded by draining the ready orphans.
   */
  function Run(A: seq<seq<Line>>, B: seq<seq<Line>>, udiff: UnifiedDiff, lhs: seq<nat>, rhs: seq<nat>, j: nat): (r: Progress)
    requires j <= |B| <= |rhs| && |A| <= |lhs|
    ensures |r.done| == |r.nol| == |r.ctr| == |A|
    ensures BEvents(r.events) == BPlan(A, B, rhs, udiff, j)
  {
    if j == 0 then Start(lhs, |A|, |B|)
    else Column(A, B, rhs, udiff, j - 1, Run(A, B, udiff, lhs, rhs, j - 1))
  }

  /** The reconciler's state with B columns `0..j-1` handled. */
  ghost predicate Inv(A: seq<seq<Line>>, B: seq<seq<Line>>, udiff: UnifiedDiff, lhs: seq<nat>, rhs: seq<nat>,
                      j: nat, s: Progress)
  {
    && Shape(A, B, lhs, rhs, j, s.done, s.nol, s.ctr)
    && Reported(s.events, s.done)
    && Flags(lhs, |B|, s.done, s.nol)
    && Counters(s.done, s.ctr)
    && MatchedProgress(lhs, |B|, s.done, j)
    && BEvents(s.events) == BPlan(A, B, rhs, udiff, j)
    && OrphanProgress(lhs, |B|, s.events, s.done, s.om)
    && ReadyOrder(s.events)
    && Prompt(s.events, lhs, |A|, |B|)
  }

  // ---------------------------------------------------------------------
  // Lemmas about the bookkeeping

  lemma {:induction false} NumDoneBounds(done: seq<bool>, k: nat)
    requires k <= |done|
    ensures NumDone(done, k) <= k
    ensures NumDone(done, k) == k <==> forall x :: 0 <= x < k ==> done[x]
  {
    if k > 0 {
      NumDoneBounds(done, k - 1);
    }
  }

  lemma {:induction false} NumDoneMark(done: seq<bool>, idx: nat, k: nat)
    requires idx < |done| && !done[idx] && k <= |done|
    ensures NumDone(done[idx := true], k) == NumDone(done, k) + (if idx < k then 1 else 0)
  {
    if k > 0 {
      NumDoneMark(done, idx, k - 1);
    }
  }

  lemma {:induction false} NumDoneNone(done: seq<bool>, k: nat)
    requires k <= |done| && forall x :: 0 <= x < |done| ==> !done[x]
    ensures NumDone(done, k) == 0
  {
    if k > 0 {
      NumDoneNone(done, k - 1);
    }
  }

  /** With nothing reported, every counter equals its row number. */
  lemma NothingDoneCounters(la: nat)
    ensures Counters(seq(la, _ => false), seq(la, i => i))
  {
    var done: seq<bool> := seq(la, _ => false);
    forall k | 0 <= k < la ensures seq(la, i => i)[k] == k - NumDone(done, k) {
      NumDoneNone(done, k);
    }
  }

  lemma AppendViews(E: seq<Event>, e: Event)
    ensures Rows(E + [e]) == Rows(E) + RowOf(e)
    ensures BEvents(E + [e]) == BEvents(E) + (if e.Orphan? then [] else [e])
    ensures OrphansOf(E + [e]) == OrphansOf(E) + (if e.Orphan? then [e.i] else [])
    ensures forall p :: 0 <= p <= |E| ==> (E + [e])[..p] == E[..p]
  {
    assert (E + [e])[..|E|] == E;
  }

  lemma NoDupAppend(s: seq<nat>, x: nat)
    requires NoDup(s) && x !in s
    ensures NoDup(s + [x])
  {
    forall p, q | 0 <= p < q < |s + [x]| ensures (s + [x])[p] != (s + [x])[q] {
      if q == |s| {
        assert (s + [x])[p] == s[p];
      } else {
        assert (s + [x])[p] == s[p] && (s + [x])[q] == s[q];
      }
    }
  }

  /** Rows without an orphan between `om` and `k` add no orphans to the list. */
  lemma {:induction false} OrphanRowsSkip(lhs: seq<nat>, lb: nat, om: nat, k: nat)
    requires om <= k <= |lhs|
    requires forall i :: om <= i < k ==> lhs[i] < lb
    ensures OrphanRowsBelow(lhs, lb, k) == OrphanRowsBelow(lhs, lb, om)
    decreases k
  {
    if k > om {
      OrphanRowsSkip(lhs, lb, om, k - 1);
    }
  }

  /** The orphan list holds exactly the orphan rows below `k`, in strictly increasing order. */
  lemma {:induction false} OrphanRowsBelowSpec(lhs: seq<nat>, lb: nat, k: nat)
    requires k <= |lhs|
    ensures forall x :: x in OrphanRowsBelow(lhs, lb, k) <==> 0 <= x < k && lhs[x] >= lb
    ensures forall p, q :: 0 <= p < q < |OrphanRowsBelow(lhs, lb, k)| ==>
      OrphanRowsBelow(lhs, lb, k)[p] < OrphanRowsBelow(lhs, lb, k)[q]
  {
    if k > 0 {
      OrphanRowsBelowSpec(lhs, lb, k - 1);
      var s := OrphanRowsBelow(lhs, lb, k - 1);
      if lhs[k - 1] >= lb {
        var t := s + [k - 1];
        forall p, q | 0 <= p < q < |t| ensures t[p] < t[q] {
          assert t[p] == s[p];
          if q < |s| { assert t[q] == s[q]; }
          else { assert s[p] in s; }
        }
      }
    }
  }

  /** The plan holds one line per B column below `k`, in column order. */
  lemma {:induction false} BPlanInOrder(A: seq<seq<Line>>, B: seq<seq<Line>>, rhs: seq<nat>, udiff: UnifiedDiff, k: nat)
    requires k <= |B| <= |rhs|
    ensures |BPlan(A, B, rhs, udiff, k)| == k
    ensures forall p :: 0 <= p < k ==> BPlan(A, B, rhs, udiff, k)[p] == BEventFor(A, B, rhs, udiff, p)
  {
    if k > 0 {
      BPlanInOrder(A, B, rhs, udiff, k - 1);
    }
  }

  lemma ReportRow(E: seq<Event>, done: seq<bool>, e: Event, i: nat)
    requires Reported(E, done) && RowOf(e) == [i] && i < |done| && !done[i]
    ensures Reported(E + [e], done[i := true])
  {
    AppendViews(E, e);
    NoDupAppend(Rows(E), i);
  }

  lemma CountersMark(done: seq<bool>, ctr: seq<int>, idx: nat)
    requires |done| == |ctr| && Counters(done, ctr) && idx < |done| && !done[idx]
    ensures Counters(done[idx := true], DecFrom(ctr, idx + 1))
  {
    var done' := done[idx := true];
    forall k | 0 <= k < |done| ensures DecFrom(ctr, idx + 1)[k] == k - NumDone(done', k) {
      NumDoneMark(done, idx, k);
    }
  }

  lemma ReadyOrderAppend(E: seq<Event>, e: Event)
    requires ReadyOrder(E)
    requires e.Orphan? ==> forall k :: 0 <= k < e.i ==> k in Rows(E)
    ensures ReadyOrder(E + [e])
  {
    assert (E + [e])[..|E|] == E;
  }

  lemma PromptAppend(E: seq<Event>, e: Event, lhs: seq<nat>, la: nat, lb: nat)
    requires la <= |lhs| && Prompt(E, lhs, la, lb)
    requires !e.Orphan? ==> Drained(Rows(E), lhs, la, lb)
    ensures Prompt(E + [e], lhs, la, lb)
  {
    assert (E + [e])[..|E|] == E;
  }

  /** When no orphan is ready by the counters, the reported rows are drained. */
  lemma NoneReadyIsDrained(lhs: seq<nat>, lb: nat, E: seq<Event>, done: seq<bool>, nol: seq<bool>, ctr: seq<int>)
    requires |done| == |nol| == |ctr| <= |lhs|
    requires Reported(E, done) && Flags(lhs, lb, done, nol) && Counters(done, ctr)
    requires forall k :: 0 <= k < |done| ==> !Ready(nol, ctr, k)
    ensures Drained(Rows(E), lhs, |done|, lb)
  {
    forall i | 0 <= i < |done| && lhs[i] >= lb && i !in Rows(E)
      ensures exists k :: 0 <= k < i && k !in Rows(E)
    {
      assert !Ready(nol, ctr, i);
      NumDoneBounds(done, i);
      assert NumDone(done, i) != i;
      var k :| 0 <= k < i && !done[k];
      assert k !in Rows(E);
    }
  }

  /** Reporting the ready orphan `idx` adds it to the orphans below `idx + 1`. */
  lemma OrphanProgressStep(lhs: seq<nat>, lb: nat, E: seq<Event>, done: seq<bool>, om: nat, idx: nat)
    requires |done| <= |lhs| && OrphanProgress(lhs, lb, E, done, om)
    requires idx < |done| && lhs[idx] >= lb && !done[idx]
    requires forall k :: 0 <= k < idx ==> done[k]
    ensures OrphanProgress(lhs, lb, E + [Orphan(idx)], done[idx := true], idx + 1)
  {
    AppendViews(E, Orphan(idx));
    OrphanRowsSkip(lhs, lb, om, idx);
  }

  /** `lhs_prior_counter` never goes negative (the assertion the source makes before each scan). */
  lemma CountersNonNegative(A: seq<seq<Line>>, B: seq<seq<Line>>, udiff: UnifiedDiff, lhs: seq<nat>, rhs: seq<nat>,
                            j: nat, s: Progress)
    requires Inv(A, B, udiff, lhs, rhs, j, s)
    ensures forall k :: 0 <= k < |s.ctr| ==> s.ctr[k] >= 0
  {
    forall k | 0 <= k < |s.ctr| ensures s.ctr[k] >= 0 {
      NumDoneBounds(s.done, k);
    }
  }

  /** The initial arrays satisfy the invariant. */
  lemma StartInv(A: seq<seq<Line>>, B: seq<seq<Line>>, udiff: UnifiedDiff, lhs: seq<nat>, rhs: seq<nat>)
    requires IsBijection(lhs, rhs, |A| + |B|)
    ensures Inv(A, B, udiff, lhs, rhs, 0, Start(lhs, |A|, |B|))
  {
    var s := Start(lhs, |A|, |B|);
    forall k | 0 <= k < |A| ensures s.ctr[k] == k - NumDone(s.done, k) {
      NumDoneNone(s.done, k);
    }
  }

  // ---------------------------------------------------------------------
  // Reporting an orphan, one part of the invariant at a time

  /** A ready row has every lower row reported. */
  lemma ReadyRowsBelowDone(s: Progress, idx: nat)
    requires |s.done| == |s.ctr| && Counters(s.done, s.ctr) && Reported(s.events, s.done)
    requires idx < |s.done| && s.ctr[idx] == 0
    ensures forall k :: 0 <= k < idx ==> s.done[k]
    ensures Covers(Rows(s.events), idx)
  {
    NumDoneBounds(s.done, idx);
  }

  lemma OrphanReported(s: Progress, idx: nat)
    requires idx < |s.done| == |s.nol| && !s.done[idx] && Reported(s.events, s.done)
    ensures Reported(AfterOrphan(s, idx).events, AfterOrphan(s, idx).done)
  {
    ReportRow(s.events, s.done, Orphan(idx), idx);
  }

  lemma OrphanFlags(lhs: seq<nat>, lb: nat, s: Progress, idx: nat)
    requires idx < |s.done| == |s.nol| <= |lhs| && Flags(lhs, lb, s.done, s.nol)
    ensures Flags(lhs, lb, AfterOrphan(s, idx).done, AfterOrphan(s, idx).nol)
  {
  }

  lemma OrphanCounters(s: Progress, idx: nat)
    requires idx < |s.done| == |s.nol| == |s.ctr| && !s.done[idx] && Counters(s.done, s.ctr)
    ensures Counters(AfterOrphan(s, idx).done, AfterOrphan(s, idx).ctr)
    ensures NumDone(AfterOrphan(s, idx).done, |s.done|) == NumDone(s.done, |s.done|) + 1
  {
    CountersMark(s.done, s.ctr, idx);
    NumDoneMark(s.done, idx, |s.done|);
  }

  lemma OrphanMatched(lhs: seq<nat>, lb: nat, s: Progress, j: nat, idx: nat)
    requires idx < |s.done| == |s.nol| <= |lhs| && lhs[idx] >= lb && MatchedProgress(lhs, lb, s.done, j)
    ensures MatchedProgress(lhs, lb, AfterOrphan(s, idx).done, j)
  {
  }

  lemma OrphanOrder(lhs: seq<nat>, la: nat, lb: nat, s: Progress, idx: nat)
    requires idx < |s.done| == |s.nol| && la <= |lhs|
    requires ReadyOrder(s.events) && Prompt(s.events, lhs, la, lb) && Covers(Rows(s.events), idx)
    ensures BEvents(AfterOrphan(s, idx).events) == BEvents(s.events)
    ensures ReadyOrder(AfterOrphan(s, idx).events)
    ensures Prompt(AfterOrphan(s, idx).events, lhs, la, lb)
  {
    AppendViews(s.events, Orphan(idx));
    ReadyOrderAppend(s.events, Orphan(idx));
    PromptAppend(s.events, Orphan(idx), lhs, la, lb);
  }

  lemma OrphanProgressed(lhs: seq<nat>, lb: nat, s: Progress, idx: nat)
    requires idx < |s.done| == |s.nol| <= |lhs| && OrphanProgress(lhs, lb, s.events, s.done, s.om)
    requires lhs[idx] >= lb && !s.done[idx] && forall k :: 0 <= k < idx ==> s.done[k]
    ensures OrphanProgress(lhs, lb, AfterOrphan(s, idx).events, AfterOrphan(s, idx).done, AfterOrphan(s, idx).om)
  {
    OrphanProgressStep(lhs, lb, s.events, s.done, s.om, idx);
  }

  /** Reporting the ready orphan `idx` keeps the invariant and reports one more row. */
  lemma EmitOrphanStep(A: seq<seq<Line>>, B: seq<seq<Line>>, udiff: UnifiedDiff, lhs: seq<nat>, rhs: seq<nat>,
                       j: nat, s: Progress, idx: nat)
    requires Inv(A, B, udiff, lhs, rhs, j, s)
    requires idx < |A| && Ready(s.nol, s.ctr, idx)
    ensures Inv(A, B, udiff, lhs, rhs, j, AfterOrphan(s, idx))
    ensures NumDone(AfterOrphan(s, idx).done, |A|) == NumDone(s.done, |A|) + 1
  {
    assert !s.done[idx] && lhs[idx] >= |B|;
    ReadyRowsBelowDone(s, idx);
    OrphanReported(s, idx);
    OrphanFlags(lhs, |B|, s, idx);
    OrphanCounters(s, idx);
    OrphanMatched(lhs, |B|, s, j, idx);
    OrphanOrder(lhs, |A|, |B|, s, idx);
    OrphanProgressed(lhs, |B|, s, idx);
  }

  // ---------------------------------------------------------------------
  // Reporting the line for a B column, one part of the invariant at a time

  /** Handling B column `j` moves the matched rows reported on to `j + 1`. */
  lemma MatchedProgressStep(lhs: seq<nat>, rhs: seq<nat>, la: nat, lb: nat, done: seq<bool>, j: nat)
    requires IsBijection(lhs, rhs, la + lb) && |done| == la && j < lb
    requires MatchedProgress(lhs, lb, done, j)
    ensures rhs[j] < la ==> MatchedProgress(lhs, lb, done[rhs[j] := true], j + 1)
    ensures rhs[j] >= la ==> MatchedProgress(lhs, lb, done, j + 1)
  {
    var i := rhs[j];
    var done' := if i < la then done[i := true] else done;
    forall i' | 0 <= i' < la && lhs[i'] < lb ensures (done'[i'] <==> lhs[i'] < j + 1) {
      if i' != i {
        assert lhs[i'] != j;
      }
    }
  }

  lemma ColumnReported(A: seq<seq<Line>>, B: seq<seq<Line>>, rhs: seq<nat>, udiff: UnifiedDiff, j: nat, s: Progress)
    requires j < |B| <= |rhs| && |s.done| == |A| && Reported(s.events, s.done)
    requires rhs[j] < |A| ==> !s.done[rhs[j]]
    ensures Reported(AfterColumn(A, B, rhs, udiff, j, s).events, AfterColumn(A, B, rhs, udiff, j, s).done)
  {
    var e := BEventFor(A, B, rhs, udiff, j);
    if rhs[j] < |A| {
      ReportRow(s.events, s.done, e, rhs[j]);
    } else {
      AppendViews(s.events, e);
    }
  }

  lemma ColumnFlags(A: seq<seq<Line>>, B: seq<seq<Line>>, lhs: seq<nat>, rhs: seq<nat>, udiff: UnifiedDiff,
                    j: nat, s: Progress)
    requires j < |B| <= |rhs| && |s.done| == |s.nol| == |A| <= |lhs| && Flags(lhs, |B|, s.done, s.nol)
    requires rhs[j] < |A| ==> lhs[rhs[j]] < |B|
    ensures Flags(lhs, |B|, AfterColumn(A, B, rhs, udiff, j, s).done, AfterColumn(A, B, rhs, udiff, j, s).nol)
  {
  }

  lemma ColumnCounters(A: seq<seq<Line>>, B: seq<seq<Line>>, rhs: seq<nat>, udiff: UnifiedDiff, j: nat, s: Progress)
    requires j < |B| <= |rhs| && |s.done| == |s.ctr| == |A| && Counters(s.done, s.ctr)
    requires rhs[j] < |A| ==> !s.done[rhs[j]]
    ensures Counters(AfterColumn(A, B, rhs, udiff, j, s).done, AfterColumn(A, B, rhs, udiff, j, s).ctr)
  {
    if rhs[j] < |A| {
      CountersMark(s.done, s.ctr, rhs[j]);
    }
  }

  lemma ColumnMatched(A: seq<seq<Line>>, B: seq<seq<Line>>, lhs: seq<nat>, rhs: seq<nat>, udiff: UnifiedDiff,
                      j: nat, s: Progress)
    requires IsBijection(lhs, rhs, |A| + |B|) && j < |B| && |s.done| == |A|
    requires MatchedProgress(lhs, |B|, s.done, j)
    ensures MatchedProgress(lhs, |B|, AfterColumn(A, B, rhs, udiff, j, s).done, j + 1)
  {
    MatchedProgressStep(lhs, rhs, |A|, |B|, s.done, j);
  }

  lemma ColumnOrder(A: seq<seq<Line>>, B: seq<seq<Line>>, lhs: seq<nat>, rhs: seq<nat>, udiff: UnifiedDiff,
                    j: nat, s: Progress)
    requires j < |B| <= |rhs| && |s.done| == |A| <= |lhs|
    requires BEvents(s.events) == BPlan(A, B, rhs, udiff, j)
    requires ReadyOrder(s.events) && Prompt(s.events, lhs, |A|, |B|) && Drained(Rows(s.events), lhs, |A|, |B|)
    ensures BEvents(AfterColumn(A, B, rhs, udiff, j, s).events) == BPlan(A, B, rhs, udiff, j + 1)
    ensures ReadyOrder(AfterColumn(A, B, rhs, udiff, j, s).events)
    ensures Prompt(AfterColumn(A, B, rhs, udiff, j, s).events, lhs, |A|, |B|)
  {
    var e := BEventFor(A, B, rhs, udiff, j);
    assert AfterColumn(A, B, rhs, udiff, j, s).events == s.events + [e];
    assert !e.Orphan?;
    AppendViews(s.events, e);
    assert BEvents(s.events + [e]) == BPlan(A, B, rhs, udiff, j) + [e];
    ReadyOrderAppend(s.events, e);
    PromptAppend(s.events, e, lhs, |A|, |B|);
  }

  lemma ColumnOrphans(A: seq<seq<Line>>, B: seq<seq<Line>>, lhs: seq<nat>, rhs: seq<nat>, udiff: UnifiedDiff,
                      j: nat, s: Progress)
    requires j < |B| <= |rhs| && |s.done| == |A| <= |lhs|
    requires OrphanProgress(lhs, |B|, s.events, s.done, s.om)
    requires rhs[j] < |A| ==> lhs[rhs[j]] < |B|
    ensures OrphanProgress(lhs, |B|, AfterColumn(A, B, rhs, udiff, j, s).events,
                           AfterColumn(A, B, rhs, udiff, j, s).done, AfterColumn(A, B, rhs, udiff, j, s).om)
  {
    AppendViews(s.events, BEventFor(A, B, rhs, udiff, j));
  }

  /** Reporting B column `j`, after the orphans were drained, keeps the invariant. */
  lemma EmitColumnStep(A: seq<seq<Line>>, B: seq<seq<Line>>, udiff: UnifiedDiff, lhs: seq<nat>, rhs: seq<nat>,
                       j: nat, s: Progress)
    requires IsBijection(lhs, rhs, |A| + |B|)
    requires Inv(A, B, udiff, lhs, rhs, j, s)
    requires j < |B| && Drained(Rows(s.events), lhs, |A|, |B|)
    ensures Inv(A, B, udiff, lhs, rhs, j + 1, AfterColumn(A, B, rhs, udiff, j, s))
  {
    assert rhs[j] < |A| ==> lhs[rhs[j]] == j && !s.done[rhs[j]];
    ColumnReported(A, B, rhs, udiff, j, s);
    ColumnFlags(A, B, lhs, rhs, udiff, j, s);
    ColumnCounters(A, B, rhs, udiff, j, s);
    ColumnMatched(A, B, lhs, rhs, udiff, j, s);
    ColumnOrder(A, B, lhs, rhs, udiff, j, s);
    ColumnOrphans(A, B, lhs, rhs, udiff, j, s);
  }

  /** After the final flush, every A row has been reported. */
  lemma {:induction false} FlushReportsAll(lhs: seq<nat>, lb: nat, E: seq<Event>, done: seq<bool>, k: nat)
    requires |done| <= |lhs| && Reported(E, done) && MatchedProgress(lhs, lb, done, lb)
    requires Drained(Rows(E), lhs, |done|, lb)
    requires k <= |done|
    ensures forall i :: 0 <= i < k ==> done[i]
  {
    if k > 0 {
      FlushReportsAll(lhs, lb, E, done, k - 1);
      var i := k - 1;
      if lhs[i] >= lb && !done[i] {
        assert false;
      }
    }
  }

  /** Draining keeps the invariant and leaves no ready orphan waiting. */
  lemma {:induction false} DrainInv(A: seq<seq<Line>>, B: seq<seq<Line>>, udiff: UnifiedDiff, lhs: seq<nat>, rhs: seq<nat>,
                                    j: nat, s: Progress)
    requires Inv(A, B, udiff, lhs, rhs, j, s)
    ensures Inv(A, B, udiff, lhs, rhs, j, Drain(s))
    ensures Drained(Rows(Drain(s).events), lhs, |A|, |B|)
    decreases Pending(s.nol)
  {
    var idx := FirstReadyFrom(s.nol, s.ctr, 0);
    if idx < 0 {
      NoneReadyIsDrained(lhs, |B|, s.events, s.done, s.nol, s.ctr);
    } else {
      EmitOrphanStep(A, B, udiff, lhs, rhs, j, s, idx);
      PendingClear(s.nol, idx);
      DrainInv(A, B, udiff, lhs, rhs, j, AfterOrphan(s, idx));
    }
  }

  /** Draining the orphans and then handling B column `j` keeps the invariant. */
  lemma ColumnInv(A: seq<seq<Line>>, B: seq<seq<Line>>, udiff: UnifiedDiff, lhs: seq<nat>, rhs: seq<nat>,
                  j: nat, s: Progress)
    requires IsBijection(lhs, rhs, |A| + |B|) && Inv(A, B, udiff, lhs, rhs, j, s) && j < |B|
    ensures Inv(A, B, udiff, lhs, rhs, j + 1, Column(A, B, rhs, udiff, j, s))
  {
    DrainInv(A, B, udiff, lhs, rhs, j, s);
    EmitColumnStep(A, B, udiff, lhs, rhs, j, Drain(s));
  }

  /** The loop starts from a state that satisfies the invariant. */
  lemma RunStartInv(A: seq<seq<Line>>, B: seq<seq<Line>>, udiff: UnifiedDiff, lhs: seq<nat>, rhs: seq<nat>)
    requires IsBijection(lhs, rhs, |A| + |B|)
    ensures Inv(A, B, udiff, lhs, rhs, 0, Run(A, B, udiff, lhs, rhs, 0))
  {
    StartInv(A, B, udiff, lhs, rhs);
  }

  /** One more column of the loop (from `k` to `j == k + 1` columns) keeps the invariant. */
  lemma {:induction false} RunStepInv(A: seq<seq<Line>>, B: seq<seq<Line>>, udiff: UnifiedDiff, lhs: seq<nat>, rhs: seq<nat>,
                                      k: nat, j: nat)
    requires IsBijection(lhs, rhs, |A| + |B|) && j == k + 1 <= |B|
    ensures Inv(A, B, udiff, lhs, rhs, j, Run(A, B, udiff, lhs, rhs, j))
    decreases j, 0
  {
    RunInv(A, B, udiff, lhs, rhs, k);
    ColumnInv(A, B, udiff, lhs, rhs, k, Run(A, B, udiff, lhs, rhs, k));
    RunTransfer(A, B, udiff, lhs, rhs, k, j);
  }

  /** One more column of the run is one `Column` step. */
  lemma RunStep(A: seq<seq<Line>>, B: seq<seq<Line>>, udiff: UnifiedDiff, lhs: seq<nat>, rhs: seq<nat>,
                k: nat, j: nat)
    requires j == k + 1 <= |B| <= |rhs| && |A| <= |lhs|
    ensures Run(A, B, udiff, lhs, rhs, j) == Column(A, B, rhs, udiff, k, Run(A, B, udiff, lhs, rhs, k))
  {
  }

  /** `Run` after `j == k + 1` columns is one column step after `k`. */
  lemma RunTransfer(A: seq<seq<Line>>, B: seq<seq<Line>>, udiff: UnifiedDiff, lhs: seq<nat>, rhs: seq<nat>,
                    k: nat, j: nat)
    requires j == k + 1 <= |B| <= |rhs| && |A| <= |lhs|
    requires Inv(A, B, udiff, lhs, rhs, k + 1, Column(A, B, rhs, udiff, k, Run(A, B, udiff, lhs, rhs, k)))
    ensures Inv(A, B, udiff, lhs, rhs, j, Run(A, B, udiff, lhs, rhs, j))
  {
  }

  /** Every state the column loop reaches satisfies the invariant. */
  lemma {:induction false} RunInv(A: seq<seq<Line>>, B: seq<seq<Line>>, udiff: UnifiedDiff, lhs: seq<nat>, rhs: seq<nat>,
                                  j: nat)
    requires IsBijection(lhs, rhs, |A| + |B|) && j <= |B|
    ensures Inv(A, B, udiff, lhs, rhs, j, Run(A, B, udiff, lhs, rhs, j))
    decreases j, 1
  {
    if j == 0 {
      RunStartInv(A, B, udiff, lhs, rhs);
    } else {
      RunStepInv(A, B, udiff, lhs, rhs, j - 1, j);
    }
  }

  /** Once the last flush has drained the orphans, the events meet the whole schedule. */
  lemma FinalReport(A: seq<seq<Line>>, B: seq<seq<Line>>, udiff: UnifiedDiff, lhs: seq<nat>, rhs: seq<nat>,
                    s: Progress)
    requires Inv(A, B, udiff, lhs, rhs, |B|, s) && Drained(Rows(s.events), lhs, |A|, |B|)
    ensures Scheduled(A, B, udiff, lhs, rhs, s.events)
  {
    FlushReportsAll(lhs, |B|, s.events, s.done, |A|);
    OrphanRowsSkip(lhs, |B|, s.om, |A|);
  }

  /**
   * The report the reconciler produces: the state after every column and a
   * last drain meets the whole schedule.
   */
  lemma RunReport(A: seq<seq<Line>>, B: seq<seq<Line>>, udiff: UnifiedDiff, lhs: seq<nat>, rhs: seq<nat>)
    requires IsBijection(lhs, rhs, |A| + |B|)
    ensures Scheduled(A, B, udiff, lhs, rhs, Drain(Run(A, B, udiff, lhs, rhs, |B|)).events)
  {
    var s := Run(A, B, udiff, lhs, rhs, |B|);
    RunInv(A, B, udiff, lhs, rhs, |B|);
    DrainInv(A, B, udiff, lhs, rhs, |B|, s);
    FinalReport(A, B, udiff, lhs, rhs, Drain(s));
  }

  /**
   * What a scheduled report says line by line: one line per B column, in
   * column order, and the orphans are exactly the A rows assigned a virtual
   * column, in strictly increasing order.
   */
  lemma ScheduledLines(A: seq<seq<Line>>, B: seq<seq<Line>>, udiff: UnifiedDiff, lhs: seq<nat>, rhs: seq<nat>,
                       E: seq<Event>)
    requires |A| <= |lhs| && |B| <= |rhs| && Scheduled(A, B, udiff, lhs, rhs, E)
    ensures |BEvents(E)| == |B|
    ensures forall p :: 0 <= p < |B| ==> BEvents(E)[p] == BEventFor(A, B, rhs, udiff, p)
    ensures forall x :: x in OrphansOf(E) <==> 0 <= x < |A| && lhs[x] >= |B|
    ensures forall p, q :: 0 <= p < q < |OrphansOf(E)| ==> OrphansOf(E)[p] < OrphansOf(E)[q]
  {
    BPlanInOrder(A, B, rhs, udiff, |B|);
    OrphanRowsBelowSpec(lhs, |B|, |A|);
  }
}
