/**
 * Text lines as git-tbdiff handles them: each line is a string that still
 * carries its trailing newline, and every test on a line is a prefix test
 * (Python's `str.startswith`).
 */
module Lines {

  type Line = string

  const DiffMarker: Line := "diff --git"
  const HunkMarker: Line := "@@ "
  const IndexMarker: Line := "index "
  const AuthorMarker: Line := "Author: "
  const MessageIndent: Line := "    "
  /** The line the normaliser puts in place of every hunk header. */
  const HunkPlaceholder: Line := "@@\n"
  const Blank: Line := "\n"

  predicate StartsWith(s: Line, prefix: Line) {
    |prefix| <= |s| && s[..|prefix|] == prefix
  }

  /** Some line starts a file diff. */
  predicate HasDiffMarker(lines: seq<Line>) {
    exists k :: 0 <= k < |lines| && StartsWith(lines[k], DiffMarker)
  }

  /** Whether a line of the tail of `lines` starts a file diff decides it for `lines` once the head does not. */
  lemma HasDiffMarkerTail(lines: seq<Line>)
    requires lines != [] && !StartsWith(lines[0], DiffMarker)
    ensures HasDiffMarker(lines) <==> HasDiffMarker(lines[1..])
  {
    if HasDiffMarker(lines[1..]) {
      var k :| 0 <= k < |lines[1..]| && StartsWith(lines[1..][k], DiffMarker);
      assert lines[k + 1] == lines[1..][k];
    }
    if HasDiffMarker(lines) {
      var k :| 0 <= k < |lines| && StartsWith(lines[k], DiffMarker);
      assert k > 0 && lines[1..][k - 1] == lines[k];
    }
  }

  /** Two prefixes that differ in their first character cannot both start a line. */
  lemma PrefixesClash(s: Line, p: Line, q: Line)
    requires |p| > 0 && |q| > 0 && p[0] != q[0]
    ensures !(StartsWith(s, p) && StartsWith(s, q))
  {
    FirstCharOfPrefix(s, p);
    FirstCharOfPrefix(s, q);
  }

  lemma FirstCharOfPrefix(s: Line, p: Line)
    ensures StartsWith(s, p) && |p| > 0 ==> |s| > 0 && s[0] == p[0]
  {
    if StartsWith(s, p) && |p| > 0 {
      assert s[..|p|][0] == s[0];
    }
  }
}
