/**
 * The cost of matching two patches (`diffsize`, git-tbdiff.py:101-109).
 *
 * `DiffSize` is the function as written: either argument may be `None`,
 * and Python's `not` also treats the empty list as absent, so an empty
 * patch paired with `None` makes the source iterate over `None` and
 * raise. `Cost` is the same function with a falsy side read as the empty
 * patch; it is total, and the cost matrix is built from it.
 */
module PatchCost {
  import opened Wrappers
  import opened Lines
  import opened Normalize
  import opened DiffParts

  /** One argument of `diffsize`: Python's `None`, or a normalised patch. */
  datatype Side = Absent | Present(lines: seq<Line>)

  /** Python's `not x` on a side: `None` and the empty list are both false. */
  predicate Falsy(s: Side) {
    s.Absent? || s.lines == []
  }

  /** The foreign `difflib.unified_diff`, as a function of the two line lists. */
  type UnifiedDiff = (seq<Line>, seq<Line>) -> seq<Line>

  function LinesOf(s: Side): seq<Line> {
    if s.Absent? then [] else s.lines
  }

  /** `diffsize` with a falsy side read as the empty patch. */
  function Cost(a: Side, b: Side, udiff: UnifiedDiff): (r: nat)
    ensures Falsy(a) && Falsy(b) ==> r == 0
    ensures Falsy(a) || Falsy(b) ==> r <= |LinesOf(a)| + |LinesOf(b)|
  {
    if Falsy(a) then |StripToDiffParts(LinesOf(b))|
    else if Falsy(b) then |StripToDiffParts(a.lines)|
    else |udiff(StripToDiffParts(a.lines), StripToDiffParts(b.lines))|
  }

  /**
   * `diffsize` as written; `None` stands for the TypeError raised when the
   * source filters `None`. It raises exactly when the first side is falsy
   * and the second is `None`, and otherwise agrees with `Cost`.
   */
  function DiffSize(a: Side, b: Side, udiff: UnifiedDiff): (r: Option<nat>)
    ensures r.None? <==> Falsy(a) && b.Absent?
    ensures r.Some? ==> r.value == Cost(a, b, udiff)
  {
    if Falsy(a) then
      if b.Absent? then None else Some(|StripToDiffParts(b.lines)|)
    else if Falsy(b) then Some(|StripToDiffParts(a.lines)|)
    else Some(|udiff(StripToDiffParts(a.lines), StripToDiffParts(b.lines))|)
  }

  /** As written, the one-sided cost is symmetric exactly for non-empty patches. */
  lemma DiffSizeOneSidedSymmetry(x: seq<Line>, udiff: UnifiedDiff)
    ensures DiffSize(Present(x), Absent, udiff) == DiffSize(Absent, Present(x), udiff) <==> x != []
    ensures x != [] ==> DiffSize(Absent, Present(x), udiff) == Some(|StripToDiffParts(x)|)
  {
  }

  /** The input that shows the asymmetry: an empty patch against `None`. */
  lemma EmptyPatchAgainstNothingRaises(udiff: UnifiedDiff)
    ensures DiffSize(Present([]), Absent, udiff) == None
    ensures DiffSize(Absent, Present([]), udiff) == Some(0)
  {
  }

  /**
   * The corrected cost of deleting a patch equals the cost of creating it:
   * the number of its lines inside file diffs, hunk headers excluded.
   */
  lemma OneSidedCostIsSymmetric(x: seq<Line>, udiff: UnifiedDiff)
    ensures Cost(Present(x), Absent, udiff) == Cost(Absent, Present(x), udiff) == |StripToDiffParts(x)|
  {
  }

  /** A subsequence is never longer than the sequence it is taken from. */
  lemma {:induction false} SubsequenceIsShorter(a: seq<Line>, b: seq<Line>)
    requires IsSubsequence(a, b)
    ensures |a| <= |b|
    decreases |b|
  {
    if a != [] {
      if a[0] == b[0] && IsSubsequence(a[1..], b[1..]) {
        SubsequenceIsShorter(a[1..], b[1..]);
      } else {
        SubsequenceIsShorter(a, b[1..]);
      }
    }
  }

  /** Creating or deleting a patch never costs more than the patch has lines. */
  lemma OneSidedCostAtMostLength(x: seq<Line>, udiff: UnifiedDiff)
    ensures Cost(Absent, Present(x), udiff) <= |x|
  {
    StripIsSubsequence(x, false);
    SubsequenceIsShorter(StripToDiffParts(x), x);
  }

  /**
   * Inside a file diff the filter keeps every normalised line: the `@@\n`
   * placeholders the normaliser writes do not start with `@@ `, so they
   * survive and count towards the cost.
   */
  lemma NormalizedDiffBlockSurvivesFilter(x: seq<Line>)
    ensures StripFrom(NormalizeFrom(x, Diff), true) == NormalizeFrom(x, Diff)
  {
    NormalizedHasNoIndexOrHunk(x, Diff);
    StripInsideDiffKeepsAll(NormalizeFrom(x, Diff));
  }
}
