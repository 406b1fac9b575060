/**
 * The patch normaliser (`strip_uninteresting_patch_parts`, git-tbdiff.py:39-61).
 *
 * The source scans the lines of one `git log -p` entry with a two-valued
 * state: in the header it keeps the author line (followed by a blank line)
 * and the four-space-indented message lines; from the first `diff --git`
 * line on it drops `index ` lines and collapses each hunk header to `@@\n`.
 * The scan is modelled as a left fold: `Step` is one iteration of the loop,
 * `NormalizeFrom` runs the loop from a given state.
 */
module Normalize {
  import opened Lines

  /** The scanner's `state` variable: `'head'` or `'diff'`. */
  datatype Phase = Head | Diff

  /** The lines one input line appends to `out`, and the state after it. */
  function Step(line: Line, phase: Phase): (r: (seq<Line>, Phase))
    ensures r.1.Diff? <==> phase.Diff? || StartsWith(line, DiffMarker)
    ensures forall x :: x in r.0 ==> x == line || x == Blank || x == HunkPlaceholder
  {
    if StartsWith(line, DiffMarker) then ([Blank, line], Diff)
    else if phase == Head then
      if StartsWith(line, AuthorMarker) then ([line, Blank], Head)
      else if StartsWith(line, MessageIndent) then ([line], Head)
      else ([], Head)
    else
      if StartsWith(line, IndexMarker) then ([], Diff)
      else if StartsWith(line, HunkMarker) then ([HunkPlaceholder], Diff)
      else ([line], Diff)
  }

  /** The output of the scan over `lines` started in `phase`. */
  function NormalizeFrom(lines: seq<Line>, phase: Phase): (r: seq<Line>)
    ensures |r| <= 2 * |lines|
    decreases |lines|
  {
    if lines == [] then []
    else
      var (out, next) := Step(lines[0], phase);
      out + NormalizeFrom(lines[1..], next)
  }

  /** The state the scan is in after `lines`. */
  function PhaseAfter(lines: seq<Line>, phase: Phase): Phase
    decreases |lines|
  {
    if lines == [] then phase else PhaseAfter(lines[1..], Step(lines[0], phase).1)
  }

  /**
   * The normalised patch: the input's `diff --git` lines, all of them and in
   * order, and no blob-index line or un-collapsed hunk header.
   */
  function StripUninterestingPatchParts(lines: seq<Line>): (r: seq<Line>)
    ensures Markers(r) == Markers(lines)
    ensures forall p :: 0 <= p < |r| ==> !StartsWith(r[p], IndexMarker) && !StartsWith(r[p], HunkMarker)
  {
    MarkersKept(lines, Head);
    NormalizedHasNoIndexOrHunk(lines, Head);
    NormalizeFrom(lines, Head)
  }

  /** A line the normaliser can let through in the header. */
  predicate HeadShaped(r: seq<Line>, p: int)
    requires 0 <= p < |r|
  {
    || (StartsWith(r[p], AuthorMarker) && p + 1 < |r| && r[p + 1] == Blank)
    || StartsWith(r[p], MessageIndent)
    || (r[p] == Blank && 0 < p && StartsWith(r[p - 1], AuthorMarker))
  }

  /** No line one step emits starts with `index ` or `@@ `. */
  lemma StepEmitsNoIndexOrHunk(line: Line, phase: Phase)
    ensures forall x :: x in Step(line, phase).0 ==>
      !StartsWith(x, IndexMarker) && !StartsWith(x, HunkMarker)
  {
    PrefixesClash(line, DiffMarker, IndexMarker);
    PrefixesClash(line, DiffMarker, HunkMarker);
    PrefixesClash(line, AuthorMarker, IndexMarker);
    PrefixesClash(line, AuthorMarker, HunkMarker);
    PrefixesClash(line, MessageIndent, IndexMarker);
    PrefixesClash(line, MessageIndent, HunkMarker);
    assert HunkPlaceholder[..|HunkMarker|][2] != HunkMarker[2];
  }

  /** The normalised patch never holds a blob-index line or an un-collapsed hunk header. */
  lemma {:induction false} NormalizedHasNoIndexOrHunk(lines: seq<Line>, phase: Phase)
    ensures forall p :: 0 <= p < |NormalizeFrom(lines, phase)| ==>
      !StartsWith(NormalizeFrom(lines, phase)[p], IndexMarker) &&
      !StartsWith(NormalizeFrom(lines, phase)[p], HunkMarker)
    decreases |lines|
  {
    if lines != [] {
      var (out, next) := Step(lines[0], phase);
      StepEmitsNoIndexOrHunk(lines[0], phase);
      NormalizedHasNoIndexOrHunk(lines[1..], next);
      var rest := NormalizeFrom(lines[1..], next);
      assert NormalizeFrom(lines, phase) == out + rest;
      forall p | 0 <= p < |out + rest|
        ensures !StartsWith((out + rest)[p], IndexMarker) && !StartsWith((out + rest)[p], HunkMarker)
      {
        if p < |out| {
          assert (out + rest)[p] in out;
        } else {
          assert (out + rest)[p] == rest[p - |out|];
        }
      }
    }
  }

  /**
   * Two inputs that differ only in the text of hunk headers normalise to the
   * same lines: hunk line numbers cannot affect the cost.
   */
  lemma {:induction false} HunkHeaderTextIsIrrelevant(x: seq<Line>, y: seq<Line>, phase: Phase)
    requires |x| == |y|
    requires forall k :: 0 <= k < |x| ==>
      x[k] == y[k] || (StartsWith(x[k], HunkMarker) && StartsWith(y[k], HunkMarker))
    ensures NormalizeFrom(x, phase) == NormalizeFrom(y, phase)
    decreases |x|
  {
    if x != [] {
      if x[0] != y[0] {
        PrefixesClash(x[0], HunkMarker, DiffMarker);
        PrefixesClash(y[0], HunkMarker, DiffMarker);
        PrefixesClash(x[0], HunkMarker, AuthorMarker);
        PrefixesClash(y[0], HunkMarker, AuthorMarker);
        PrefixesClash(x[0], HunkMarker, MessageIndent);
        PrefixesClash(y[0], HunkMarker, MessageIndent);
        PrefixesClash(x[0], HunkMarker, IndexMarker);
        PrefixesClash(y[0], HunkMarker, IndexMarker);
        assert Step(x[0], phase) == Step(y[0], phase);
      }
      HunkHeaderTextIsIrrelevant(x[1..], y[1..], Step(x[0], phase).1);
    }
  }

  /** The scan over `x + y` is the scan over `x` followed by the scan over `y` from where `x` left off. */
  lemma {:induction false} NormalizeAppend(x: seq<Line>, y: seq<Line>, phase: Phase)
    ensures NormalizeFrom(x + y, phase) == NormalizeFrom(x, phase) + NormalizeFrom(y, PhaseAfter(x, phase))
    decreases |x|
  {
    if x == [] {
      assert x + y == y;
    } else {
      var out, next := Step(x[0], phase).0, Step(x[0], phase).1;
      assert (x + y)[0] == x[0] && (x + y)[1..] == x[1..] + y;
      NormalizeAppend(x[1..], y, next);
      assert NormalizeFrom(x + y, phase) == out + NormalizeFrom(x[1..] + y, next);
      assert NormalizeFrom(x, phase) == out + NormalizeFrom(x[1..], next);
      assert PhaseAfter(x, phase) == PhaseAfter(x[1..], next);
      var u, v := NormalizeFrom(x[1..], next), NormalizeFrom(y, PhaseAfter(x[1..], next));
      assert out + (u + v) == (out + u) + v;
    }
  }

  /** A header-shaped position stays header-shaped when more output follows. */
  lemma HeadShapedExtend(r: seq<Line>, t: seq<Line>, p: int)
    requires 0 <= p < |r| && HeadShaped(r, p)
    ensures HeadShaped(r + t, p)
  {
    assert (r + t)[p] == r[p];
    if p + 1 < |r| { assert (r + t)[p + 1] == r[p + 1]; }
    if 0 < p { assert (r + t)[p - 1] == r[p - 1]; }
  }

  /** The scan over lines with no `diff --git` line emits only header-shaped lines. */
  lemma {:induction false} HeadOnlyKeepsAuthorAndMessage(lines: seq<Line>)
    requires !HasDiffMarker(lines)
    ensures forall p :: 0 <= p < |NormalizeFrom(lines, Head)| ==> HeadShaped(NormalizeFrom(lines, Head), p)
    decreases |lines|
  {
    if lines != [] {
      var (out, next) := Step(lines[0], Head);
      assert !StartsWith(lines[0], DiffMarker);
      assert next == Head;
      HasDiffMarkerTail(lines);
      HeadOnlyKeepsAuthorAndMessage(lines[1..]);
      var rest := NormalizeFrom(lines[1..], Head);
      var r := out + rest;
      assert NormalizeFrom(lines, Head) == r;
      forall p | 0 <= p < |r| ensures HeadShaped(r, p) {
        if p >= |out| {
          assert HeadShaped(rest, p - |out|);
          assert r[p] == rest[p - |out|];
          if p + 1 < |r| { assert r[p + 1] == rest[p - |out| + 1]; }
          if p - |out| > 0 { assert r[p - 1] == rest[p - |out| - 1]; }
        }
      }
    }
  }

  /**
   * For any patch, the output the header (the lines before the first
   * `diff --git` line, or any prefix of them) contributes comes first and
   * holds only author lines (each followed by a blank line), that blank
   * line and indented message lines.
   */
  lemma HeadKeepsAuthorAndMessage(lines: seq<Line>, m: nat)
    requires m <= |lines| && !HasDiffMarker(lines[..m])
    ensures var head := NormalizeFrom(lines[..m], Head);
      && head <= StripUninterestingPatchParts(lines)
      && forall p :: 0 <= p < |head| ==> HeadShaped(StripUninterestingPatchParts(lines), p)
  {
    var head := NormalizeFrom(lines[..m], Head);
    var tail := NormalizeFrom(lines[m..], PhaseAfter(lines[..m], Head));
    assert lines == lines[..m] + lines[m..];
    NormalizeAppend(lines[..m], lines[m..], Head);
    assert StripUninterestingPatchParts(lines) == head + tail;
    HeadOnlyKeepsAuthorAndMessage(lines[..m]);
    forall p | 0 <= p < |head| ensures HeadShaped(head + tail, p) {
      HeadShapedExtend(head, tail, p);
    }
  }

  /** The lines that start a file diff, in order. */
  function Markers(lines: seq<Line>): seq<Line>
    decreases |lines|
  {
    if lines == [] then []
    else (if StartsWith(lines[0], DiffMarker) then [lines[0]] else []) + Markers(lines[1..])
  }

  /** The header lines the normaliser keeps: author lines and four-space-indented lines, in order. */
  function HeadLines(lines: seq<Line>): seq<Line>
    decreases |lines|
  {
    if lines == [] then []
    else
      (if StartsWith(lines[0], AuthorMarker) || StartsWith(lines[0], MessageIndent) then [lines[0]] else [])
      + HeadLines(lines[1..])
  }

  /** `kept` with a blank line inserted after each author line. */
  function WithAuthorBlanks(kept: seq<Line>): seq<Line>
    decreases |kept|
  {
    if kept == [] then []
    else (if StartsWith(kept[0], AuthorMarker) then [kept[0], Blank] else [kept[0]]) + WithAuthorBlanks(kept[1..])
  }

  /** The lines of a diff block other than blob-index lines, in order. */
  function NoIndex(lines: seq<Line>): seq<Line>
    decreases |lines|
  {
    if lines == [] then []
    else (if StartsWith(lines[0], IndexMarker) then [] else [lines[0]]) + NoIndex(lines[1..])
  }

  /** A hunk header reduced to the placeholder; every other line unchanged. */
  function Collapse(line: Line): Line {
    if StartsWith(line, HunkMarker) then HunkPlaceholder else line
  }

  function CollapseAll(lines: seq<Line>): seq<Line> {
    seq(|lines|, k requires 0 <= k < |lines| => Collapse(lines[k]))
  }

  /** What the scan emits, started in `phase`, for a stretch of lines with no `diff --git` line. */
  function Segment(lines: seq<Line>, phase: Phase): seq<Line> {
    if phase == Head then WithAuthorBlanks(HeadLines(lines)) else CollapseAll(NoIndex(lines))
  }

  lemma {:induction false} MarkersAppend(x: seq<Line>, y: seq<Line>)
    ensures Markers(x + y) == Markers(x) + Markers(y)
    decreases |x|
  {
    if x == [] {
      assert x + y == y;
    } else {
      assert (x + y)[0] == x[0] && (x + y)[1..] == x[1..] + y;
      MarkersAppend(x[1..], y);
      var h := if StartsWith(x[0], DiffMarker) then [x[0]] else [];
      assert Markers(x + y) == h + Markers(x[1..] + y);
      assert Markers(x) == h + Markers(x[1..]);
      assert h + (Markers(x[1..]) + Markers(y)) == (h + Markers(x[1..])) + Markers(y);
    }
  }

  /** One step emits a `diff --git` line exactly when it reads one, and then that line. */
  lemma StepMarkers(line: Line, phase: Phase)
    ensures Markers(Step(line, phase).0) == if StartsWith(line, DiffMarker) then [line] else []
  {
    PrefixesClash(line, AuthorMarker, DiffMarker);
    PrefixesClash(line, MessageIndent, DiffMarker);
    assert !StartsWith(Blank, DiffMarker) && !StartsWith(HunkPlaceholder, DiffMarker);
    assert [line][1..] == [] && [Blank][1..] == [] && [HunkPlaceholder][1..] == [];
    MarkersAppend([Blank], [line]);
    MarkersAppend([line], [Blank]);
    assert [Blank] + [line] == [Blank, line] && [line] + [Blank] == [line, Blank];
  }

  /** The normalised patch holds the `diff --git` lines of the input, all of them and in order, and no other. */
  lemma {:induction false} MarkersKept(lines: seq<Line>, phase: Phase)
    ensures Markers(NormalizeFrom(lines, phase)) == Markers(lines)
    decreases |lines|
  {
    if lines != [] {
      var (out, next) := Step(lines[0], phase);
      MarkersKept(lines[1..], next);
      MarkersAppend(out, NormalizeFrom(lines[1..], next));
      StepMarkers(lines[0], phase);
    }
  }

  lemma CollapseAllCons(line: Line, rest: seq<Line>)
    ensures CollapseAll([line] + rest) == [Collapse(line)] + CollapseAll(rest)
  {
    assert forall k :: 0 < k <= |rest| ==> ([line] + rest)[k] == rest[k - 1];
  }

  /**
   * Within a diff block with no further `diff --git` line, the normaliser
   * drops exactly the blob-index lines, keeps every other line in order and
   * replaces each hunk header by the placeholder.
   */
  lemma {:induction false} DiffBodyIsCollapsed(lines: seq<Line>)
    requires !HasDiffMarker(lines)
    ensures NormalizeFrom(lines, Diff) == CollapseAll(NoIndex(lines))
    decreases |lines|
  {
    if lines != [] {
      assert !StartsWith(lines[0], DiffMarker);
      HasDiffMarkerTail(lines);
      DiffBodyIsCollapsed(lines[1..]);
      if !StartsWith(lines[0], IndexMarker) {
        CollapseAllCons(lines[0], NoIndex(lines[1..]));
      }
    }
  }

  /**
   * In a header with no `diff --git` line, the normaliser keeps exactly the
   * author and indented lines, in order, with a blank line after each
   * author line.
   */
  lemma {:induction false} HeadIsAuthorAndMessage(lines: seq<Line>)
    requires !HasDiffMarker(lines)
    ensures NormalizeFrom(lines, Head) == WithAuthorBlanks(HeadLines(lines))
    decreases |lines|
  {
    if lines != [] {
      assert !StartsWith(lines[0], DiffMarker);
      HasDiffMarkerTail(lines);
      HeadIsAuthorAndMessage(lines[1..]);
      if StartsWith(lines[0], AuthorMarker) || StartsWith(lines[0], MessageIndent) {
        var kept := [lines[0]] + HeadLines(lines[1..]);
        assert HeadLines(lines) == kept && kept[0] == lines[0] && kept[1..] == HeadLines(lines[1..]);
        assert WithAuthorBlanks(kept) == Step(lines[0], Head).0 + WithAuthorBlanks(HeadLines(lines[1..]));
      } else {
        assert HeadLines(lines) == HeadLines(lines[1..]);
        assert NormalizeFrom(lines, Head) == NormalizeFrom(lines[1..], Head);
      }
    }
  }

  /** Without a `diff --git` line, the scan stays in the state it started in. */
  lemma PhaseKept(lines: seq<Line>, phase: Phase)
    requires !HasDiffMarker(lines)
    ensures PhaseAfter(lines, phase) == phase
  {
    if phase == Head { EntersDiffIffMarker(lines); } else { DiffPhaseIsFinal(lines); }
  }

  /**
   * A `diff --git` line splits the output: what comes before it is emitted
   * as `Segment` describes, then a blank line and the `diff --git` line
   * itself, then the rest is scanned in the diff state. With
   * `DiffBodyIsCollapsed` for the last block this determines the whole
   * normalised patch, block by block.
   */
  lemma SplitAtMarker(pre: seq<Line>, m: Line, post: seq<Line>, phase: Phase)
    requires !HasDiffMarker(pre) && StartsWith(m, DiffMarker)
    ensures NormalizeFrom(pre + [m] + post, phase) == Segment(pre, phase) + [Blank, m] + NormalizeFrom(post, Diff)
  {
    var tail := [m] + post;
    assert pre + [m] + post == pre + tail;
    NormalizeAppend(pre, tail, phase);
    PhaseKept(pre, phase);
    MarkerStep(m, post, phase);
    if phase == Head { HeadIsAuthorAndMessage(pre); } else { DiffBodyIsCollapsed(pre); }
  }

  lemma MarkerStep(m: Line, post: seq<Line>, phase: Phase)
    requires StartsWith(m, DiffMarker)
    ensures NormalizeFrom([m] + post, phase) == [Blank, m] + NormalizeFrom(post, Diff)
  {
    assert ([m] + post)[1..] == post;
  }

  /**
   * Every `diff --git` line of the input is in the output, in the same order,
   * and each is directly preceded there by a blank line.
   */
  lemma {:induction false} DiffLineFollowsBlank(lines: seq<Line>, phase: Phase)
    ensures Markers(NormalizeFrom(lines, phase)) == Markers(lines)
    ensures forall p :: 0 <= p < |NormalizeFrom(lines, phase)| && StartsWith(NormalizeFrom(lines, phase)[p], DiffMarker) ==>
      0 < p && NormalizeFrom(lines, phase)[p - 1] == Blank
    decreases |lines|
  {
    MarkersKept(lines, phase);
    if lines != [] {
      var line := lines[0];
      var (out, next) := Step(line, phase);
      DiffLineFollowsBlank(lines[1..], next);
      var rest := NormalizeFrom(lines[1..], next);
      var r := out + rest;
      assert NormalizeFrom(lines, phase) == r;
      PrefixesClash(line, AuthorMarker, DiffMarker);
      PrefixesClash(line, MessageIndent, DiffMarker);
      forall p | 0 <= p < |r| && StartsWith(r[p], DiffMarker) ensures 0 < p && r[p - 1] == Blank {
        if p >= |out| {
          assert r[p] == rest[p - |out|];
          assert r[p - 1] == rest[p - |out| - 1];
        } else {
          assert StartsWith(line, DiffMarker) && p == 1;
        }
      }
    }
  }

  /** Once the scan has reached a diff block it never returns to the header state. */
  lemma {:induction false} DiffPhaseIsFinal(lines: seq<Line>)
    ensures PhaseAfter(lines, Diff) == Diff
    decreases |lines|
  {
    if lines != [] {
      DiffPhaseIsFinal(lines[1..]);
    }
  }

  /** The scan ends in the diff state exactly when some line starts a file diff. */
  lemma {:induction false} EntersDiffIffMarker(lines: seq<Line>)
    ensures PhaseAfter(lines, Head) == Diff <==> HasDiffMarker(lines)
    decreases |lines|
  {
    if lines != [] {
      if StartsWith(lines[0], DiffMarker) {
        DiffPhaseIsFinal(lines[1..]);
      } else {
        EntersDiffIffMarker(lines[1..]);
        HasDiffMarkerTail(lines);
      }
    }
  }
}
