/**
 * The cost matrix of `compute_assignment` (git-tbdiff.py:193-206).
 *
 * Rows `0..|A|-1` are the patches of series A, columns `0..|B|-1` those of
 * series B; the remaining rows and columns are virtual "no counterpart"
 * entries. The matrix starts as zeros (`np.zeros`) and is filled in three
 * nested loops.
 */
module CostMatrix {
  import opened Wrappers
  import opened Lines
  import opened PatchCost

  /**
   * `creation_fudge * cost`, truncated into the uint32 matrix, as a function
   * of the unscaled one-sided cost.
   */
  type Scale = nat -> nat

  /**
   * The value the source leaves in cell `(r, c)` once all three loops have
   * run, that is, when no deletion cost raises.
   */
  ghost function Intended(A: seq<seq<Line>>, B: seq<seq<Line>>, udiff: UnifiedDiff, scale: Scale, r: nat, c: nat): nat
    requires r < |A| + |B| && c < |A| + |B|
  {
    if r < |A| && c < |B| then Cost(Present(A[r]), Present(B[c]), udiff)
    else if r < |A| then scale(Cost(Present(A[r]), Absent, udiff))
    else if c < |B| then scale(Cost(Absent, Present(B[c]), udiff))
    else 0
  }

  /** The pairwise block (git-tbdiff.py:197-199), filled into a zero matrix. */
  method FillPairs(A: seq<seq<Line>>, B: seq<seq<Line>>, udiff: UnifiedDiff, ghost scale: Scale, dist: array2<nat>)
    requires dist.Length0 == |A| + |B| && dist.Length1 == |A| + |B|
    requires forall r, c :: 0 <= r < dist.Length0 && 0 <= c < dist.Length1 ==> dist[r, c] == 0
    modifies dist
    ensures forall r, c :: 0 <= r < dist.Length0 && 0 <= c < dist.Length1 ==>
      dist[r, c] == if r < |A| && c < |B| then Intended(A, B, udiff, scale, r, c) else 0
  {
    var n := |A| + |B|;
    for i := 0 to |A|
      invariant forall r, c :: 0 <= r < n && 0 <= c < n ==>
        dist[r, c] == if r < i && c < |B| then Intended(A, B, udiff, scale, r, c) else 0
    {
      for j := 0 to |B|
        invariant forall r, c :: 0 <= r < n && 0 <= c < n ==>
          dist[r, c] == if (r < i && c < |B|) || (r == i && c < j) then Intended(A, B, udiff, scale, r, c) else 0
      {
        var d := DiffSize(Present(A[i]), Present(B[j]), udiff);
        dist[i, j] := d.value;
      }
    }
  }

  /**
   * The deletion block (git-tbdiff.py:201-203): every A row's virtual
   * columns. `ok` is false when `diffsize(dA[u], None)` raises, which it
   * does for the first empty A patch.
   */
  method FillDeletions(A: seq<seq<Line>>, B: seq<seq<Line>>, udiff: UnifiedDiff, scale: Scale, dist: array2<nat>)
    returns (ok: bool)
    requires dist.Length0 == |A| + |B| && dist.Length1 == |A| + |B|
    requires forall r, c :: 0 <= r < dist.Length0 && 0 <= c < dist.Length1 ==>
      dist[r, c] == if r < |A| && c < |B| then Intended(A, B, udiff, scale, r, c) else 0
    modifies dist
    ensures ok <==> forall k :: 0 <= k < |A| ==> A[k] != []
    ensures ok ==> forall r, c :: 0 <= r < dist.Length0 && 0 <= c < dist.Length1 ==>
      dist[r, c] == if r < |A| then Intended(A, B, udiff, scale, r, c) else 0
  {
    var la, lb := |A|, |B|;
    var n := la + lb;
    for i := 0 to la
      invariant forall k :: 0 <= k < i ==> A[k] != []
      invariant forall r, c :: 0 <= r < n && 0 <= c < n ==>
        dist[r, c] == if (r < la && c < lb) || (r < i && lb <= c) then Intended(A, B, udiff, scale, r, c) else 0
    {
      for j := lb to lb + la
        invariant j > lb ==> A[i] != []
        invariant forall r, c :: 0 <= r < n && 0 <= c < n ==>
          dist[r, c] == if (r < la && c < lb) || (r < i && lb <= c) || (r == i && lb <= c < j)
                        then Intended(A, B, udiff, scale, r, c) else 0
      {
        var d := DiffSize(Present(A[i]), Absent, udiff);
        if d.None? {
          return false;
        }
        dist[i, j] := scale(d.value);
      }
    }
    return true;
  }

  /** The creation block (git-tbdiff.py:204-206): every B column's virtual rows. */
  method FillCreations(A: seq<seq<Line>>, B: seq<seq<Line>>, udiff: UnifiedDiff, scale: Scale, dist: array2<nat>)
    requires dist.Length0 == |A| + |B| && dist.Length1 == |A| + |B|
    requires forall r, c :: 0 <= r < dist.Length0 && 0 <= c < dist.Length1 ==>
      dist[r, c] == if r < |A| then Intended(A, B, udiff, scale, r, c) else 0
    modifies dist
    ensures forall r, c :: 0 <= r < dist.Length0 && 0 <= c < dist.Length1 ==>
      dist[r, c] == Intended(A, B, udiff, scale, r, c)
  {
    var la, lb := |A|, |B|;
    var n := la + lb;
    for i := la to la + lb
      invariant forall r, c :: 0 <= r < n && 0 <= c < n ==>
        dist[r, c] == if r < la || (r < i && c < lb) then Intended(A, B, udiff, scale, r, c) else 0
    {
      for j := 0 to lb
        invariant forall r, c :: 0 <= r < n && 0 <= c < n ==>
          dist[r, c] == if r < la || (r < i && c < lb) || (r == i && c < j) then Intended(A, B, udiff, scale, r, c) else 0
      {
        var d := DiffSize(Absent, Present(B[j]), udiff);
        dist[i, j] := scale(d.value);
      }
    }
  }

  /**
   * The cost matrix, each cell computed by `diffsize` as written. `None`
   * stands for the TypeError the deletion column raises for an empty A
   * patch, which ends `compute_assignment`.
   */
  method BuildCostMatrix(A: seq<seq<Line>>, B: seq<seq<Line>>, udiff: UnifiedDiff, scale: Scale)
    returns (r: Option<array2<nat>>)
    ensures r.None? <==> exists i :: 0 <= i < |A| && A[i] == []
    ensures r.Some? ==> fresh(r.value)
    ensures r.Some? ==> r.value.Length0 == |A| + |B| && r.value.Length1 == |A| + |B|
    // real x real: the pairwise cost
    ensures r.Some? ==> forall i, j :: 0 <= i < |A| && 0 <= j < |B| ==>
      r.value[i, j] == Cost(Present(A[i]), Present(B[j]), udiff)
    // A rows x virtual columns: one scaled deletion cost per row
    ensures r.Some? ==> forall i, j :: 0 <= i < |A| && |B| <= j < |A| + |B| ==>
      r.value[i, j] == scale(Cost(Present(A[i]), Absent, udiff))
    // virtual rows x B columns: one scaled creation cost per column
    ensures r.Some? ==> forall i, j :: |A| <= i < |A| + |B| && 0 <= j < |B| ==>
      r.value[i, j] == scale(Cost(Absent, Present(B[j]), udiff))
    // virtual x virtual: left at zero
    ensures r.Some? ==> forall i, j :: |A| <= i < |A| + |B| && |B| <= j < |A| + |B| ==> r.value[i, j] == 0
  {
    var n := |A| + |B|;
    var dist := new nat[n, n]((_, _) => 0);
    FillPairs(A, B, udiff, scale, dist);
    var ok := FillDeletions(A, B, udiff, scale, dist);
    if !ok {
      return None;
    }
    FillCreations(A, B, udiff, scale, dist);
    return Some(dist);
  }
}
