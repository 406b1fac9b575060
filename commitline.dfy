/**
 * The status mark of `format_commit_line` (git-tbdiff.py:142-157) and the
 * arguments the reconciler passes to it for each line of its report.
 *
 * A commit argument is Python's `None` or a commit name; both `None` and
 * the empty name count as false in the source's tests.
 */
module CommitLine {
  import opened Wrappers
  import opened Lines
  import opened PatchCost
  import opened Schedule

  type Commit = Option<string>

  /** The commit argument is true in Python's sense. */
  predicate Given(c: Commit) {
    c.Some? && c.value != []
  }

  /**
   * The middle mark of a report line: `<` for an A patch only, `>` for a B
   * patch only, `!` or `=` for a pair depending on whether their patches
   * differ. `None` where the source's assertion that some side is given
   * fails.
   */
  function Status(left: Commit, right: Commit, hasDiff: bool): (r: Option<char>)
    ensures r.None? <==> !Given(left) && !Given(right)
    ensures r == Some('<') <==> Given(left) && !Given(right)
    ensures r == Some('>') <==> !Given(left) && Given(right)
    ensures r == Some('!') <==> Given(left) && Given(right) && hasDiff
    ensures r == Some('=') <==> Given(left) && Given(right) && !hasDiff
  {
    if !Given(left) && !Given(right) then None
    else if Given(left) && !Given(right) then Some('<')
    else if Given(right) && !Given(left) then Some('>')
    else if hasDiff then Some('!')
    else Some('=')
  }

  /** The indices an event names are rows of A and columns of B. */
  predicate InRange(e: Event, la: nat, lb: nat) {
    match e
    case Orphan(i) => i < la
    case Matched(i, j, _) => i < la && j < lb
    case Created(j) => j < lb
  }

  /** The commit arguments and `has_diff` flag with which the reconciler reports an event. */
  function Arguments(e: Event, sA: seq<string>, sB: seq<string>): (r: (Commit, Commit, bool))
    requires InRange(e, |sA|, |sB|)
    ensures r.0.Some? <==> !e.Created?
    ensures r.1.Some? <==> !e.Orphan?
    ensures r.0.Some? ==> r.0.value == sA[e.i]
    ensures r.1.Some? ==> r.1.value == sB[e.j]
    ensures r.2 <==> e.Matched? && e.hasDiff
  {
    match e
    case Orphan(i) => (Some(sA[i]), None, false)
    case Matched(i, j, d) => (Some(sA[i]), Some(sB[j]), d)
    case Created(j) => (None, Some(sB[j]), false)
  }

  /**
   * Every commit name in the list is non-empty. The names are the second
   * word of the `commit <sha1>` lines of `git log -p` (git-tbdiff.py:79),
   * and splitting on white space never yields an empty word.
   */
  predicate Named(s: seq<string>) {
    forall k :: 0 <= k < |s| ==> s[k] != []
  }

  /**
   * With non-empty commit names, each report line passes the assertion and
   * its mark tells its kind: `<` for an orphan, `>` for a creation, and for
   * a match `!` exactly when the pair's patches differ.
   */
  lemma ReportStatus(sA: seq<string>, sB: seq<string>, e: Event)
    requires Named(sA) && Named(sB) && InRange(e, |sA|, |sB|)
    ensures var (l, r, d) := Arguments(e, sA, sB);
      && Status(l, r, d).Some?
      && (Status(l, r, d) == Some('<') <==> e.Orphan?)
      && (Status(l, r, d) == Some('>') <==> e.Created?)
      && (Status(l, r, d) == Some('!') <==> e.Matched? && e.hasDiff)
      && (Status(l, r, d) == Some('=') <==> e.Matched? && !e.hasDiff)
  {
    match e
    case Orphan(i) => assert sA[i] != [];
    case Matched(i, j, _) => assert sA[i] != [] && sB[j] != [];
    case Created(j) => assert sB[j] != [];
  }

  /** A row or matched line at position `p` puts its row into `Rows`. */
  lemma {:induction false} RowReported(E: seq<Event>, p: nat)
    requires p < |E| && !E[p].Created?
    ensures E[p].i in Rows(E)
    decreases |E|
  {
    var E' := E[..|E| - 1];
    if p < |E| - 1 {
      assert E'[p] == E[p];
      RowReported(E', p);
    }
  }

  /** A B-driven line at position `p` is one of `BEvents`. */
  lemma {:induction false} BEventReported(E: seq<Event>, p: nat)
    requires p < |E| && !E[p].Orphan?
    ensures E[p] in BEvents(E)
    decreases |E|
  {
    var E' := E[..|E| - 1];
    if p < |E| - 1 {
      assert E'[p] == E[p];
      BEventReported(E', p);
    }
  }

  /** The planned B-driven lines name columns of B and, when matched, rows of A. */
  lemma {:induction false} PlanInRange(A: seq<seq<Line>>, B: seq<seq<Line>>, rhs: seq<nat>, udiff: UnifiedDiff,
                                       k: nat, e: Event)
    requires k <= |B| <= |rhs| && e in BPlan(A, B, rhs, udiff, k)
    ensures InRange(e, |A|, |B|)
  {
    if e != BEventFor(A, B, rhs, udiff, k - 1) {
      PlanInRange(A, B, rhs, udiff, k - 1, e);
    }
  }

  /** Every line of a report the reconciler produces names a row of A or a column of B. */
  lemma EventsInRange(A: seq<seq<Line>>, B: seq<seq<Line>>, udiff: UnifiedDiff, lhs: seq<nat>, rhs: seq<nat>,
                      E: seq<Event>)
    requires |A| <= |lhs| && |B| <= |rhs| && Scheduled(A, B, udiff, lhs, rhs, E)
    ensures forall p :: 0 <= p < |E| ==> InRange(E[p], |A|, |B|)
  {
    forall p | 0 <= p < |E|
      ensures InRange(E[p], |A|, |B|)
    {
      if !E[p].Orphan? {
        BEventReported(E, p);
        PlanInRange(A, B, rhs, udiff, |B|, E[p]);
      } else {
        RowReported(E, p);
      }
    }
  }
}
