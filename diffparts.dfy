/**
 * The diff-part filter (`strip_to_diff_parts_1` / `strip_to_diff_parts`,
 * git-tbdiff.py:87-98): everything from the first `diff --git` line on,
 * except lines that start with `@@ `.
 *
 * The normaliser writes hunk headers as `@@\n`, with no space, so this
 * filter does not remove the placeholders the normaliser leaves behind.
 */
module DiffParts {
  import opened Lines

  /** The generator run with its `in_diff` flag starting at `inDiff`. */
  function StripFrom(lines: seq<Line>, inDiff: bool): (r: seq<Line>)
    ensures |r| <= |lines|
    decreases |lines|
  {
    if lines == [] then []
    else
      var nowIn := inDiff || StartsWith(lines[0], DiffMarker);
      (if nowIn && !StartsWith(lines[0], HunkMarker) then [lines[0]] else [])
        + StripFrom(lines[1..], nowIn)
  }

  /** The filtered patch: some of the input's lines in their order, none of them a hunk header. */
  function StripToDiffParts(lines: seq<Line>): (r: seq<Line>)
    ensures IsSubsequence(r, lines)
    ensures NoHunkLines(r)
  {
    StripIsSubsequence(lines, false);
    StripHasNoHunkLines(lines, false);
    StripFrom(lines, false)
  }

  /** `a` is `b` with some elements left out, the rest in their order. */
  predicate IsSubsequence(a: seq<Line>, b: seq<Line>)
    decreases |b|
  {
    if a == [] then true
    else if b == [] then false
    else (a[0] == b[0] && IsSubsequence(a[1..], b[1..])) || IsSubsequence(a, b[1..])
  }

  predicate NoHunkLines(lines: seq<Line>) {
    forall p :: 0 <= p < |lines| ==> !StartsWith(lines[p], HunkMarker)
  }

  /** The filter only deletes lines; it never adds or reorders them. */
  lemma {:induction false} StripIsSubsequence(lines: seq<Line>, inDiff: bool)
    ensures IsSubsequence(StripFrom(lines, inDiff), lines)
    decreases |lines|
  {
    if lines != [] {
      var nowIn := inDiff || StartsWith(lines[0], DiffMarker);
      var rest := StripFrom(lines[1..], nowIn);
      StripIsSubsequence(lines[1..], nowIn);
      if nowIn && !StartsWith(lines[0], HunkMarker) {
        assert StripFrom(lines, inDiff) == [lines[0]] + rest;
        assert ([lines[0]] + rest)[1..] == rest;
      } else {
        assert StripFrom(lines, inDiff) == rest;
        if rest != [] {
          assert IsSubsequence(rest, lines[1..]);
        }
      }
    }
  }

  /** No hunk-header line survives the filter. */
  lemma {:induction false} StripHasNoHunkLines(lines: seq<Line>, inDiff: bool)
    ensures NoHunkLines(StripFrom(lines, inDiff))
    decreases |lines|
  {
    if lines != [] {
      var nowIn := inDiff || StartsWith(lines[0], DiffMarker);
      StripHasNoHunkLines(lines[1..], nowIn);
      var head := if nowIn && !StartsWith(lines[0], HunkMarker) then [lines[0]] else [];
      var rest := StripFrom(lines[1..], nowIn);
      forall p | 0 <= p < |head + rest| ensures !StartsWith((head + rest)[p], HunkMarker) {
        if p >= |head| { assert (head + rest)[p] == rest[p - |head|]; }
      }
    }
  }

  /**
   * The filtered patch is empty exactly when no line starts a file diff, and
   * otherwise begins with a `diff --git` line.
   */
  lemma {:induction false} StripStartsAtDiffMarker(lines: seq<Line>)
    ensures StripToDiffParts(lines) == [] <==> !HasDiffMarker(lines)
    ensures StripToDiffParts(lines) != [] ==> StartsWith(StripToDiffParts(lines)[0], DiffMarker)
    decreases |lines|
  {
    if lines != [] {
      if StartsWith(lines[0], DiffMarker) {
        PrefixesClash(lines[0], DiffMarker, HunkMarker);
        assert StripToDiffParts(lines)[0] == lines[0];
      } else {
        StripStartsAtDiffMarker(lines[1..]);
        HasDiffMarkerTail(lines);
      }
    }
  }

  /** Inside a diff block, a patch without hunk-header lines passes unchanged. */
  lemma {:induction false} StripInsideDiffKeepsAll(lines: seq<Line>)
    requires NoHunkLines(lines)
    ensures StripFrom(lines, true) == lines
    decreases |lines|
  {
    if lines != [] {
      assert NoHunkLines(lines[1..]) by {
        forall p | 0 <= p < |lines[1..]| ensures !StartsWith(lines[1..][p], HunkMarker) {
          assert lines[1..][p] == lines[p + 1];
        }
      }
      StripInsideDiffKeepsAll(lines[1..]);
    }
  }

  /** The lines that do not start with `@@ `, in their order. */
  function NoHunk(lines: seq<Line>): seq<Line>
    decreases |lines|
  {
    if lines == [] then []
    else (if StartsWith(lines[0], HunkMarker) then [] else [lines[0]]) + NoHunk(lines[1..])
  }

  /** Inside a diff block the filter keeps exactly the lines that do not start with `@@ `. */
  lemma {:induction false} StripInsideDiffIsNoHunk(lines: seq<Line>)
    ensures StripFrom(lines, true) == NoHunk(lines)
    decreases |lines|
  {
    if lines != [] {
      StripInsideDiffIsNoHunk(lines[1..]);
    }
  }

  /** Lines before the first `diff --git` line contribute nothing. */
  lemma {:induction false} StripSkipsHeader(pre: seq<Line>, rest: seq<Line>)
    requires !HasDiffMarker(pre)
    ensures StripFrom(pre + rest, false) == StripFrom(rest, false)
    decreases |pre|
  {
    if pre == [] {
      assert pre + rest == rest;
    } else {
      HasDiffMarkerTail(pre);
      assert (pre + rest)[0] == pre[0] && (pre + rest)[1..] == pre[1..] + rest;
      StripSkipsHeader(pre[1..], rest);
    }
  }

  /**
   * The filter drops the header before the first `diff --git` line `m` and
   * keeps `m` and every later line that does not start with `@@ `.
   */
  lemma StripKeepsDiffBlock(pre: seq<Line>, m: Line, post: seq<Line>)
    requires !HasDiffMarker(pre) && StartsWith(m, DiffMarker)
    ensures StripToDiffParts(pre + [m] + post) == [m] + NoHunk(post)
  {
    assert pre + [m] + post == pre + ([m] + post);
    StripSkipsHeader(pre, [m] + post);
    PrefixesClash(m, DiffMarker, HunkMarker);
    assert ([m] + post)[0] == m && ([m] + post)[1..] == post;
    StripInsideDiffIsNoHunk(post);
  }

  /** Filtering an already filtered patch changes nothing. */
  lemma StripIsIdempotent(lines: seq<Line>)
    ensures StripToDiffParts(StripToDiffParts(lines)) == StripToDiffParts(lines)
  {
    var r := StripToDiffParts(lines);
    StripStartsAtDiffMarker(lines);
    StripHasNoHunkLines(lines, false);
    if r != [] {
      assert NoHunkLines(r[1..]) by {
        forall p | 0 <= p < |r[1..]| ensures !StartsWith(r[1..][p], HunkMarker) {
          assert r[1..][p] == r[p + 1];
        }
      }
      StripInsideDiffKeepsAll(r[1..]);
      PrefixesClash(r[0], DiffMarker, HunkMarker);
      assert StripFrom(r, false) == [r[0]] + StripFrom(r[1..], true);
      assert [r[0]] + r[1..] == r;
    }
  }
}
