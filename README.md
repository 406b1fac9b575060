# git-tbdiff: a verified model of the patch comparison core

git-tbdiff compares two versions of a patch series, A and B, that are
read from `git log -p`. It normalises each patch so that hunk line
numbers and blob indices do not matter. It prices every pairing of an A
patch with a B patch, and it prices deleting an A patch or creating a B
patch. An assignment solver then pairs the patches. Finally it prints a
report in B's order, and places each dropped A patch (an *orphan*) as
soon as all of its predecessors in A have been shown.

This project models that core in Dafny:

- `lines.dfy` (`Lines`): lines as strings and the prefix tests the source makes.
- `normalize.dfy` (`Normalize`): the two-state patch normaliser, as a fold over the lines.
- `diffparts.dfy` (`DiffParts`): the filter that keeps the file-diff part of a patch without `@@ ` lines.
- `cost.dfy` (`PatchCost`): `diffsize`, both as written (with its error) and in a corrected total form.
- `costmatrix.dfy` (`CostMatrix`): the square cost matrix, filled in place in nested loops from `diffsize` as written.
- `schedule.dfy` (`Schedule`): the reconciler as functions over its state. It defines the report every run must produce (`Scheduled`), the invariant of the loop (`Inv`) and the proofs that the loop keeps it.
- `reconciler.dfy` (`Reconciler`): the reconciler as the source writes it. Two arrays are updated in place and a sequence of report events grows. Each method is proved equal to its functional counterpart in `Schedule`.
- `commitline.dfy` (`CommitLine`): the status mark `<`, `>`, `!` or `=` of a report line, and what it is for each event.

The report is modelled as a sequence of events:
- `Orphan(i)`: A patch `i` was dropped.
- `Matched(i, j, hasDiff)`: A patch `i` is paired with B patch `j`.
- `Created(j)`: B patch `j` is new.

Printing those lines is not modelled.

## Model

| member | source | states |
|---|---|---|
| Normalize.Step | git-tbdiff.py:42-60 | one iteration of the loop: the state becomes `diff` exactly when it already was or the line starts with `diff --git`, and the lines it appends are only the line itself, a blank line or the `@@\n` placeholder |
| Normalize.NormalizeFrom | git-tbdiff.py:39-61 | the loop run from a given state appends at most two lines per input line |
| Normalize.StripUninterestingPatchParts | git-tbdiff.py:39-61 | the normalised patch holds the input's `diff --git` lines, all of them and in order, and no line that starts with `index ` or `@@ ` |
| Normalize.MarkersKept | git-tbdiff.py:43-46 | from any starting state, the `diff --git` lines of the output are exactly those of the input, in order |
| Normalize.DiffBodyIsCollapsed | git-tbdiff.py:53-60 | in the `diff` state, over lines with no `diff --git` line, the output is the input with the `index ` lines removed and every other line kept in order, each `@@ ` line replaced by `@@\n` |
| Normalize.HeadIsAuthorAndMessage | git-tbdiff.py:47-52 | in the `head` state, over lines with no `diff --git` line, the output is exactly the `Author: ` and four-space-indented lines of the input, in order, with a blank line after each `Author: ` line |
| Normalize.SplitAtMarker | git-tbdiff.py:39-61 | for input `pre + [m] + post` with `m` a `diff --git` line and none in `pre`, the output is `pre`'s output as the two lemmas above describe it, then a blank line and `m`, then `post` scanned in the `diff` state; applied block by block this determines the whole normalised patch |
| Normalize.NormalizedHasNoIndexOrHunk | git-tbdiff.py:39-61 | no output line starts with `index ` or `@@ `, from any starting state |
| Normalize.HunkHeaderTextIsIrrelevant | git-tbdiff.py:53-59 | two inputs that differ only in the text after `@@ ` on hunk-header lines normalise to the same lines |
| Normalize.NormalizeAppend | git-tbdiff.py:40-61 | the scan over `x + y` is the scan over `x` followed by the scan over `y`, started in the state `x` leaves |
| Normalize.HeadOnlyKeepsAuthorAndMessage | git-tbdiff.py:47-52 | the scan over lines with no `diff --git` line emits only `Author: ` lines, each directly followed by a blank line, that blank line, and four-space-indented lines |
| Normalize.HeadKeepsAuthorAndMessage | git-tbdiff.py:39-61 | for any patch and any prefix of it with no `diff --git` line, that prefix's output is a prefix of `strip_uninteresting_patch_parts` of the whole patch, and it holds only `Author: ` lines, each directly followed by a blank line, that blank line, and four-space-indented lines |
| Normalize.DiffLineFollowsBlank | git-tbdiff.py:43-46 | every `diff --git` line of the input is in the output, in the same order, and every `diff --git` line in the output sits at a position above 0, directly after a blank line |
| Normalize.DiffPhaseIsFinal | git-tbdiff.py:43-60 | once in the `diff` state, the scanner stays there whatever lines follow |
| Normalize.EntersDiffIffMarker | git-tbdiff.py:41-44 | the scan ends in the `diff` state if and only if some input line starts with `diff --git` |
| DiffParts.StripFrom | git-tbdiff.py:87-95 | the generator run with a given `in_diff` flag yields no more lines than it reads |
| DiffParts.StripToDiffParts | git-tbdiff.py:87-98 | the filtered patch is a subsequence of the input and holds no line that starts with `@@ ` |
| DiffParts.StripIsSubsequence | git-tbdiff.py:87-98 | the filtered lines are a subsequence of the input: lines are only deleted, never added or reordered |
| DiffParts.StripHasNoHunkLines | git-tbdiff.py:94-95 | no filtered line starts with `@@ ` |
| DiffParts.StripStartsAtDiffMarker | git-tbdiff.py:88-93 | the result is empty if and only if no line starts with `diff --git`; otherwise its first line starts with `diff --git` |
| DiffParts.StripInsideDiffKeepsAll | git-tbdiff.py:89-96 | once inside a diff block, a list without `@@ ` lines passes unchanged |
| DiffParts.StripInsideDiffIsNoHunk | git-tbdiff.py:89-96 | once `in_diff` is set, the filter keeps exactly the lines that do not start with `@@ `, in order |
| DiffParts.StripSkipsHeader | git-tbdiff.py:88-93 | lines before the first `diff --git` line contribute nothing to the result |
| DiffParts.StripKeepsDiffBlock | git-tbdiff.py:87-98 | for a patch `pre + [m] + post` whose first `diff --git` line is `m`, the result is `m` followed by every line of `post` that does not start with `@@ ` |
| DiffParts.StripIsIdempotent | git-tbdiff.py:87-98 | filtering twice gives the same result as filtering once |
| PatchCost.Cost | git-tbdiff.py:101-109 | the corrected cost: zero when both sides are falsy, and when one side is falsy at most the number of lines of the two sides |
| PatchCost.DiffSize | git-tbdiff.py:101-109 | as written, the call raises exactly when the first side is falsy (`None` or empty) and the second is `None`; otherwise it equals the corrected `Cost` |
| PatchCost.DiffSizeOneSidedSymmetry | git-tbdiff.py:101-105 | as written, `diffsize(x, None) == diffsize(None, x)` holds exactly for non-empty `x`, and then both equal the length of the filtered `x` |
| PatchCost.EmptyPatchAgainstNothingRaises | git-tbdiff.py:101-105 | `diffsize([], None)` raises while `diffsize(None, [])` is 0 |
| PatchCost.OneSidedCostIsSymmetric | git-tbdiff.py:101-105 | the corrected deletion cost of a patch equals its creation cost; both are the length of the filtered patch |
| PatchCost.OneSidedCostAtMostLength | git-tbdiff.py:102-103 | the creation cost of a patch is at most the number of its lines |
| PatchCost.NormalizedDiffBlockSurvivesFilter | git-tbdiff.py:57 | inside a diff block, the filter keeps every normalised line, the `@@\n` placeholders included |
| CostMatrix.FillPairs | git-tbdiff.py:196-199 | on the zero matrix, the nested loop leaves every real×real cell at the pairwise cost and every other cell at zero |
| CostMatrix.FillDeletions | git-tbdiff.py:200-203 | the loop completes exactly when no A patch is empty, and then every A row's virtual columns hold its scaled deletion cost, the pairwise block is kept, and the virtual rows are still zero |
| CostMatrix.FillCreations | git-tbdiff.py:204-206 | every B column's virtual rows get its scaled creation cost; afterwards every cell holds its intended value |
| CostMatrix.BuildCostMatrix | git-tbdiff.py:193-206 | every cell comes from `diffsize` as written, so the result is a failure exactly when some A patch is empty: the deletion column raises for it. Otherwise the matrix is fresh and square with side `la+lb`. Real×real cells hold the pairwise cost. Every A row's virtual columns hold that row's scaled deletion cost. Every B column's virtual rows hold that column's scaled creation cost. The virtual×virtual block is zero |
| Schedule.BEventFor | git-tbdiff.py:233-251 | the line for B column `j` names column `j`; it is a match exactly when `rhs[j]` is a real A row, then names that row, and is changed exactly when the pair's diff is non-empty; otherwise it is a creation |
| Schedule.Start | git-tbdiff.py:216-217 | before anything is reported, no row is reported, the orphan flag is set exactly on the rows with `lhs >= lb`, and counter `k` is the number of unreported rows below `k` |
| Schedule.AfterOrphan | git-tbdiff.py:226-228 | reporting orphan `idx` appends `idx` to the reported rows and to the orphans, leaves the B-driven lines as they were, marks the row reported and clears its flag |
| Schedule.AfterColumn | git-tbdiff.py:233-251 | reporting column `j` appends its line to the B-driven lines, adds no orphan, and for a match appends the row to the reported rows and marks it; for a creation the reported rows stay as they were |
| Schedule.Drain | git-tbdiff.py:219-228 | `process_lhs_orphans` as a function: it ends with no ready row, only extends the events, and adds no B-driven line |
| Schedule.Column | git-tbdiff.py:230-251 | one pass of the loop over B extends the events, and the only B-driven line it adds is column `j`'s |
| Schedule.Run | git-tbdiff.py:230-251 | after columns `0..j-1`, the B-driven lines reported are exactly the planned lines for those columns, in order |
| Schedule.FirstReadyFrom | git-tbdiff.py:222-224 | the result is -1 or a ready row at or above `k` (counter zero and orphan flag set); no row from `k` up to the result, or above `k` at all when it is -1, is ready |
| Schedule.PendingClear | git-tbdiff.py:220-227 | clearing a set orphan flag lowers the number of set flags by one, so the `while True` loop ends |
| Schedule.OrphanRowsBelowSpec | git-tbdiff.py:216 | the expected orphan list holds exactly the rows below `k` assigned a virtual column, strictly increasing |
| Schedule.BPlanInOrder | git-tbdiff.py:230-251 | the expected B-driven lines are one per column below `k`, in column order |
| Schedule.ReadyOrderAt | git-tbdiff.py:222-226 | in an ordered report, every row below an orphan is reported before that orphan |
| Schedule.PromptAt | git-tbdiff.py:232 | in a prompt report, no ready orphan is left waiting before any B-driven line |
| Schedule.NoneReadyIsDrained | git-tbdiff.py:222-225 | when the counters and flags show no ready row, every unreported orphan has an unreported row below it |
| Schedule.CountersNonNegative | git-tbdiff.py:221 | under the loop invariant every `lhs_prior_counter` entry is non-negative, so the assertion never fails |
| Schedule.StartInv | git-tbdiff.py:216-217 | the initial flags (`lhs >= lb` on A rows) and counters (`arange(la)`) satisfy the invariant: counter `k` is `k` minus the number of reported rows below `k` |
| Schedule.EmitOrphanStep | git-tbdiff.py:226-228 | reporting a ready orphan keeps the invariant and reports exactly one more row |
| Schedule.EmitColumnStep | git-tbdiff.py:233-251 | once the orphans are drained, reporting column `j` as a match (and decrementing the counters above its row) or as a creation keeps the invariant at `j + 1` |
| Schedule.DrainInv | git-tbdiff.py:219-228 | `process_lhs_orphans` keeps the invariant and returns with no orphan ready |
| Schedule.ColumnInv | git-tbdiff.py:230-251 | one pass of the loop over B keeps the invariant from `j` to `j + 1` |
| Schedule.RunInv | git-tbdiff.py:216-251 | every state the loop over B reaches satisfies the invariant |
| Schedule.FinalReport | git-tbdiff.py:252 | after the last flush, an invariant state's events form a complete schedule |
| Schedule.RunReport | git-tbdiff.py:216-252 | for a bijective assignment, the events of the whole run form a complete schedule. The B-driven lines are exactly the planned ones, in column order. The orphans are exactly the rows assigned a virtual column, in increasing order. Every A row is reported exactly once. No orphan comes before a lower row. No B line comes while an orphan is ready |
| Schedule.ScheduledLines | git-tbdiff.py:230-252 | a complete schedule has one line per B column, in column order. Its orphans are exactly the A rows with `lhs >= lb`, strictly increasing |
| Reconciler.FirstReady | git-tbdiff.py:222-224 | the scan over the arrays returns the smallest ready row, or -1 |
| Reconciler.DecrementFrom | git-tbdiff.py:228 | `lhs_prior_counter[from:] -= 1`: the entries from `from` on drop by one, the rest are unchanged |
| Reconciler.ReportOrphan | git-tbdiff.py:226-228 | reporting orphan `idx` leaves the events, flags and counters as the functional `AfterOrphan` step |
| Reconciler.ProcessLhsOrphans | git-tbdiff.py:219-228 | the arrays and events end as the functional `Drain` of the state they held on entry. The assertion that no counter is negative holds at every scan, because the loop keeps the reconciler's invariant |
| Reconciler.HandleColumn | git-tbdiff.py:230-251 | one pass of the loop over B leaves the arrays and events as the functional `Column` step |
| Reconciler.ColumnLoop | git-tbdiff.py:230-251 | from the initial flags and counters, the loop over B leaves the arrays and events as the functional run over all of B's columns |
| Reconciler.FinalFlush | git-tbdiff.py:252 | the last drain leaves the events of the functional run, and they form a complete schedule |
| Reconciler.Reconcile | git-tbdiff.py:216-252 | the events equal the functional run, and they form a complete schedule |
| CommitLine.Status | git-tbdiff.py:142-157 | no mark if and only if neither side is given (the assertion fails). `<` if and only if only the left side is given, `>` if and only if only the right side is given. With both sides given, `!` if and only if `has_diff`, and `=` otherwise |
| CommitLine.Arguments | git-tbdiff.py:226-251 | the left commit is given exactly for orphans and matches and is A's name for the row; the right commit is given exactly for matches and creations and is B's name for the column; `has_diff` is true exactly for a changed match |
| CommitLine.ReportStatus | git-tbdiff.py:226-251 | with non-empty commit names, every report line passes the assertion. Its mark is `<` exactly for orphans and `>` exactly for creations. For matches it is `!` exactly when the pair's diff is non-empty, and `=` otherwise |
| CommitLine.EventsInRange | git-tbdiff.py:219-251 | every line of a complete schedule names an A row below `la` and a B column below `lb` |

## Left out

- `read_patches`, `commitinfo`, `commitinfo_maybe`, `get_color` and `load_colors` run `git` subprocesses. The patch series are inputs: a sequence of normalised patches per side, and commit names where the status mark needs them.
- `hungarian.lap` is a foreign assignment solver. Its result `lhs`/`rhs` is an input that is required to be a pair of mutually inverse permutations of `0..la+lb-1`. Optimality is not modelled.
- `difflib.unified_diff` is a foreign diff. It is the function parameter `udiff`; its length is the two-sided cost, and whether it is empty decides `!` versus `=`.
- CostMatrix.BuildCostMatrix: does not model the float `creation_fudge` multiply or the `uint32` storage of the matrix. The scaled one-sided cost is an abstract parameter `scale`, and pairwise costs are unbounded naturals rather than values wrapped to 32 bits.
- Printing is not modelled: the columns, numbers, subjects and colours of `format_commit_line`, and the rendered diff below a changed pair. `numfmt` and `numdash` are locals of `compute_assignment` that `format_commit_line` reads, so that path raises a `NameError` as written.
- Option parsing and `die` are not modelled.
- numpy's fixed-width integers for `lhs_prior_counter` are unbounded integers here. The counters stay between 0 and `la`.

Two details of the code are easy to miss:
- The normaliser writes hunk headers as `@@\n`, with no space, and the filter only drops lines that start with `@@ `. So the placeholders stay in the filtered patch and count towards the cost (`PatchCost.NormalizedDiffBlockSurvivesFilter`).
- Whether a matched pair is changed is decided by `udiff` on the normalised patches (git-tbdiff.py:234). The filtered patches that the cost uses are not involved.

## Findings

| source | as written | input that shows it | evidently intended | confidence | as-written member | corrected member |
|---|---|---|---|---|---|---|
| git-tbdiff.py:101-105 | `not lA` is true for an empty list, so `diffsize([], None)` goes on to filter `None` and raises a TypeError, while `diffsize(None, [])` returns 0 | `diffsize([], None)`, as in the deletion column at line 203. From `compute_assignment` this needs an A patch whose normalised lines are empty, which needs a log entry with no `Author: ` line and no message or diff | a falsy side counts as an empty patch, so the one-sided cost is symmetric and total | not executed | PatchCost.EmptyPatchAgainstNothingRaises | PatchCost.OneSidedCostIsSymmetric |
