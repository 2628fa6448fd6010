# Verified models of OSAgent's text, layout and configuration algorithms

This project states, in Dafny, what the algorithmic parts of OSAgent do and proves what they promise.
It covers five areas of the repository.

* **Diffs.** The line diff behind file previews (common ends set aside, a longest-common-subsequence table
  filled in place, a walk over it, a coarse fallback for large inputs), the grouping of changed lines into
  hunks, and the readers that recover a file from its printed diff.
* **Diagrams.** Longest-path ranks by relaxation with a pass budget, lanes, centring, pinned coordinates,
  normalisation, group frames, the sweep that pushes frames apart, and the canvas size.
* **Messages.** The Markdown renderer that works on a growing text, its one-shot counterpart, the code
  highlighter, and the entity coder and decoder.
* **Configuration.** Provider keys moving from `config.toml` to `auth.toml`, settings redacted for the browser
  and restored from it, and the workspace list with its operations.
* **Commands and timers.** The `/goal` parser with the strings the panel prints, the coalescing of session
  reloads, and the polling of a GitHub device sign-in.

Code that works by updating variables is modelled by methods and classes with loops over the same variables
(`LineDiff.FillTable` writes the flat `Uint32Array`, `LayerRanks.Pass` raises ranks in place,
`MarkdownElement.Element` holds the renderer's references into its last child, and so on). Each of them is proved
equal to a function on values, and the laws are proved about the functions. Several proofs use `hide` to keep
definitions they do not need away from the solver.

Layout of the files: `Text`, `RustText` and `Lcs` are shared notions; `LineDiff`, `DiffHunks`, `DiffPatch` and
`UnifiedText` are the diff; `LayerRanks`, `LaneGeometry`, `GroupFrames`, `FrameSpacing`, `WideGroups`, `Tidiness`,
`DiagramLayout` and `LayoutExamples` the diagrams; `MarkdownLines`, `MarkdownForms`, `MarkdownStream`,
`MarkdownElement`, `MarkdownBatch`, `MarkdownDocuments`, `MarkdownHeaders`, `MarkdownExamples`, `CodeHighlight`,
`HighlightRules` and `Entities` the messages; `KeyStore`, `KeyEffects`, `SecretRedaction`, `SecretEffects`,
`Workspaces`, `WorkspaceEffects` and `WorkspaceSettings` the configuration; `GoalCommand`, `GoalGrammar`,
`SessionReload` and `DeviceFlow` the rest. `Tidiness`, `MarkdownForms`, `MarkdownDocuments`, `HighlightRules`,
`GoalGrammar` and the three files named after effects state what the operations do without the functions that
compute it, numbers and names written out.

## Where the code falls short of what one would expect

Each of these is a theorem: the exact condition, or a concrete input.

* A diff is minimal exactly when the table was used or the two middles share no line
  (`LineDiff.ScriptIsDiff`). The hunks of every two texts are a patch exactly with one line of context or more
  (`DiffPatch.PatchIffContext`); without any, those of `a` against `x`, `a`, `y` are rejected
  (`DiffPatch.NoContextNoPatch`).
* A printed diff reads back as the old text exactly when no deleted line starts with `--`
  (`UnifiedText.OldRoundTrip`), and likewise for `++` (`UnifiedText.NewRoundTrip`); an SQL comment replaced by an
  increment loses both (`UnifiedText.CommentAndIncrement`).
* The sweep that pushes group frames apart moves their boxes without looking at any other box. In a drawing of four
  boxes and three edges it puts a box on top of an ungrouped one, and an edge of an acyclic graph no longer runs
  forward (`LayoutExamples.SweptOntoBox`, `LayoutExamples.DrawSample`). The lanes' spacing is left alone exactly
  when the frames were clear of one another before the sweep, and for groups that keep to one rank each that is a
  condition on the specification: groups of a rank do not interleave and, left to right, are not neighbours,
  where the frames' paddings of 40 and 18 exceed the gap of 56. For groups over several ranks the condition is that
  every two are apart in ranks or beside one another in their lanes (`WideGroups.SpreadFrames`).
  Boxes that move alike and boxes of different frames keep their distance whatever the sweep does
  (`DiagramLayout.SpacingSurvives`).
* The frames wrap their members after the sweep exactly when no two frames share a group id, and keep the
  canvas margin exactly when some node names a group or there is no frame: a group whose id is empty frames the
  ungrouped boxes although no padding was reserved for it (`DiagramLayout.FrameGroups`,
  `LayoutExamples.EmptyGroupId`, `LayoutExamples.RepeatedGroupId`). The drawing tool refuses an empty group id
  (`src/tools/diagram.rs:169-179`, `389-395`), so that input takes another caller of `computeLayout`.
* Highlighting a code block whose language is `constructor` or `__proto__`, in any case, throws: the keyword table
  is an object literal and the look-up finds an inherited value that is no list
  (`CodeHighlight.HighlightIsLossless`, `CodeHighlight.ConstructorFence`). Renders, flush and one-shot rendering of a
  text get through exactly when no such block is closed and none is left open at the end
  (`MarkdownStream.ChunkingIsIrrelevant`, `MarkdownBatch.FormatGetsThrough`). A render that throws has appended lines
  it does not count: the next one appends them again into the open block, and a growing text never gets past it
  (`MarkdownStream.ThrowsForEver`, `MarkdownExamples.ThrownFenceStreamed`).
* As long as no render throws, streaming depends on the chunking in one case: a code block with at least one line is
  still open when the last newline of the text has already been rendered (`MarkdownStream.ChunkingIsIrrelevant`,
  `MarkdownExamples.OpenFenceStreamed`).
* A table written the usual way, first row, separator, rows, has a header row when rendered at once and none when
  streamed, and the separator then makes a header of the next table's first row. The two renderings get through and
  are the same cell by cell exactly when every code block can be highlighted, no newlines trail behind an open one
  beyond one right behind its fence, and every table has a separator before it just when one falls between the
  previous table's end and its own (`MarkdownHeaders.StreamingIsFormat`, `MarkdownHeaders.UsualTable`,
  `MarkdownExamples.TableFormatted`).
* Restoring a redacted configuration gives two providers on one endpoint the same key
  (`SecretRedaction.SharedEndpointSwapsKeys`). A name, id or model list that the browser empties comes back from the
  live configuration (`SecretRedaction.TypedSecretsWin`, `SecretRedaction.EmptiedModelsReturn`).
* `ensure_workspace_defaults` is not idempotent when the workspace path is blank and the fallback is used
  (`Workspaces.EnsureTwice`, `Workspaces.BlankWorkspaceMoves`).
* The comment at `src/auth_store.rs:106-107` says that a failed config save just migrates again on the next load.
  The code does so exactly when some entry without an id holds a key: the auth file already holds all others by
  then, so nothing counts as moved and `config.toml` keeps its inline copies (`KeyStore.FailedConfigSaveSticks`).
  The model follows the code.
* An inline key can end up in neither file: exactly when the config file is rewritten, the legacy block does not
  hold the key, and the auth file neither had nor got it (`KeyStore.LostKey`). With an unwritable auth file and
  another migration due it happens to the only key of the only entry (`KeyStore.LostWithoutAuthWrite`).
* `src/auth_store.rs:139-141` logs that `config.toml` is now shareable. A rewritten config file still holds the keys
  of the legacy provider block, and no others (`KeyStore.KeptInConfig`, `KeyStore.LegacyKeyStays`).
* An objective typed without a budget is parsed as written exactly when it does not start with an action word or
  an option (`GoalCommand.PlainObjective`); the strings the editor prints are always safe
  (`GoalCommand.CreateRoundTrip`).

## Model

| member | source | states |
|---|---|---|
| LineDiff.Compute | frontend/js/diff-core.js:3-36 | the returned lines spell both texts and are numbered; they are a fewest-changes diff whenever shared ends leave middles of m and n lines with (m+1)*(n+1) at most 1000000; when the middles behind the longest shared ends exceed that, or have no line in common, every deletion comes before every addition |
| LineDiff.ScriptIsDiff | frontend/js/diff-core.js:3-36 | unchanged and deleted lines spell the old text, unchanged and added lines the new one; no script changes fewer lines, exactly when the table fits or the middles have no line in common |
| LineDiff.ScriptLines | frontend/js/diff-core.js:3-36 | the same about the numbered script, for every two lists of lines and all their shared ends |
| LineDiff.TrimIsLargest | frontend/js/diff-core.js:6-9 | no shared ends leave shorter middles than those the code sets aside, and ends that cannot grow are those |
| LineDiff.DisjointWalk | frontend/js/diff-core.js:26-33 | with no line in common the walk deletes everything and then adds everything |
| LineDiff.MinimalIffKeepsLcs | frontend/js/diff-core.js:20-33 | a script changes as few lines as any script between its two sides exactly when it keeps as many lines as their longest common subsequence |
| LineDiff.TrimKeepsLcs | frontend/js/diff-core.js:6-9 | setting the common prefix and suffix aside costs no common line: the longest common subsequence is theirs plus that of the middles |
| LineDiff.WalkIsOptimal | frontend/js/diff-core.js:26-33 | the greedy walk over the table transforms the one middle into the other and keeps a longest common subsequence |
| LineDiff.FillTable | frontend/js/diff-core.js:20-25 | every cell of the flat table holds the longest-common-subsequence length of the two suffixes it stands for, stored modulo 2^32 without ever wrapping |
| LineDiff.Backtrack | frontend/js/diff-core.js:26-33 | the walk with its two draining loops pushes exactly the edits of the walk read off the table |
| LineDiff.TrimEnds | frontend/js/diff-core.js:6-9 | the two loops find the longest common prefix and then the longest common suffix that does not reach into it |
| LineDiff.EmitMiddle | frontend/js/diff-core.js:16-34 | above the size bound all deletions and then all additions, otherwise the walk over the table |
| LineDiff.NumberAt | frontend/js/diff-core.js:11-12 | a line carries, on each side it belongs to, one more than the number of lines of that side before it, and no number on the other side |
| LineDiff.LineBuffer.Push | frontend/js/diff-core.js:11-12 | `add` appends one line with the current numbers and advances the counters of the sides it belongs to |
| Lcs.UpperBound | frontend/js/diff-core.js:22-25 | no common subsequence is longer than the recurrence of the table says |
| Lcs.Attained | frontend/js/diff-core.js:22-25 | some common subsequence is as long as the recurrence says |
| DiffHunks.BuildDiffHunks | frontend/js/diff.js:44-100 | the hunks show exactly the lines within the context of a change, 3 when no number is given, in maximal disjoint ranges, or the whole text as one hunk when nothing changed |
| DiffHunks.ExactUnique | frontend/js/diff.js:63-73 | there is only one list of ranges, at least one hidden line apart, that covers exactly the lines to show |
| DiffHunks.BuildRanges | frontend/js/diff.js:63-73 | merging the windows in place yields that list |
| DiffHunks.PushWindow | frontend/js/diff.js:64-73 | a window touching the last range widens it in place, any other opens a new range |
| DiffHunks.CollectChanged | frontend/js/diff.js:47-51 | the ascending positions of the changed lines, all of them |
| DiffHunks.FirstNumbers | frontend/js/diff.js:80-87 | the early-exit loop finds the first number of each side, 0 when a side has none |
| DiffHunks.HunkHeader | frontend/js/diff.js:75-98 | counts are the lines of each side; a start is the true position exactly when the hunk has a line of that side or the two sides are level there, and otherwise the start of the other side |
| DiffPatch.DiffIsPatch | frontend/js/diff.js:44-100 | for every two texts and any context of at least one line the hunks, read by old start and old count only, take the old text to the new, reversed take it back, and no count is zero |
| DiffPatch.LevelHunksPatch | frontend/js/diff.js:75-98 | with any context, none included, hunks whose old starts are right patch the old text into the new |
| DiffPatch.NoContextNoPatch | frontend/js/diff.js:89-90 | the hunks of the script computed for the texts `a` and `x`, `a`, `y`, grouped without context, are rejected: the borrowed start of a pure addition misplaces the second one |
| DiffPatch.PatchIffContext | frontend/js/diff.js:44-100 | the hunks of every two texts with that much context are a patch exactly when the context is one line or more |
| DiffPatch.AddsAround | frontend/js/diff-core.js:3-36 | the computed script of a line with another line added on either side |
| DiffPatch.ShowDiff | frontend/js/diff.js:115-122 | computing the lines and grouping them with three lines of context yields hunks that patch the old text into the new |
| UnifiedText.ExtractOldContent | frontend/js/messages.js:1107-1120 | the lines kept are the deleted and unchanged ones, header-like lines dropped, joined again |
| UnifiedText.ExtractNewContent | frontend/js/messages.js:1122-1135 | the same with added lines |
| UnifiedText.OldRoundTrip | frontend/js/messages.js:1107-1120 | printing the computed diff and reading the old content back gives the old text exactly when no deleted line starts with `--` |
| UnifiedText.NewRoundTrip | frontend/js/messages.js:1122-1135 | printing the computed diff and reading the new content back gives the new text exactly when no added line starts with `++` |
| UnifiedText.RemovedDashesAreLost | frontend/js/messages.js:1107-1120 | a line starting with `--` that the new text no longer has keeps the old text from being read back |
| UnifiedText.AddedPlusesAreLost | frontend/js/messages.js:1122-1135 | a line starting with `++` that the old text did not have keeps the new text from being read back |
| UnifiedText.CommentAndIncrement | frontend/js/messages.js:1107-1135 | a concrete pair of one-line texts of which neither reads back |
| LayerRanks.AssignRanks | frontend/js/diagrams.js:203-224 | every rank is the length of some walk into the node and at least that of every walk of up to n arcs; the ranks are stable exactly on graphs acyclic but for self-loops, and then each is the longest path |
| LayerRanks.BuildIndex | frontend/js/diagrams.js:204-205 | the index map sends a repeated id to its last position |
| LayerRanks.Pass | frontend/js/diagrams.js:210-220 | one sweep over the edges in place extends every walk by an arc, and reports no change only at a fixpoint |
| LayerRanks.Relaxation | frontend/js/diagrams.js:208-222 | within the pass budget the ranks reach a fixpoint or dominate all walks of that many arcs |
| LayerRanks.AcyclicWalkIsShort | frontend/js/diagrams.js:206-208 | without cycles a walk has fewer arcs than there are nodes, which is why the budget suffices |
| LayerRanks.Settles | frontend/js/diagrams.js:206-208 | what the budget leaves is a fixpoint exactly on acyclic input, and then the longest-path layering |
| LaneGeometry.BuildLanes | frontend/js/diagrams.js:305-311 | lanes hold exactly the boxes not pinned on both axes, by rank, in node order, keys ascending |
| LaneGeometry.SortKeys | frontend/js/diagrams.js:317 | the keys of the lane map, ascending and each once |
| LaneGeometry.BoxesClear | frontend/js/diagrams.js:318-371 | any two unpinned boxes are at least the gap apart on one of the axes after centring and any common shift |
| LaneGeometry.ArcsRunForward | frontend/js/diagrams.js:318-353 | on ranks that are a fixpoint every arc between unpinned boxes ends at least the gap behind where its source ends |
| Tidiness.LaidIsTidy | frontend/js/diagrams.js:304-366 | lanes hold the boxes free on some axis by rank and input order; along the flow lanes are 56 apart, or 76 where a box names a group, but never nearer to the start than their thickness; neighbours in a lane are 56 apart and all lanes with free ends have one middle, in both directions |
| GroupFrames.SweepClears | frontend/js/diagrams.js:424-450 | after the sweep any two swept frames that overlap across the flow are at least the group gap apart along it |
| GroupFrames.SweepWraps | frontend/js/diagrams.js:412-450 | with distinct group ids every frame stays the padded bounding interval of its members through the whole sweep |
| GroupFrames.RepeatBreaks | frontend/js/diagrams.js:412-450 | if two frames share an id the sweep leaves one of them off its members |
| GroupFrames.SweepMoves | frontend/js/diagrams.js:439-447 | the sweep only ever moves frames and boxes forward along the flow and changes no size |
| GroupFrames.SweepStill | frontend/js/diagrams.js:439-447 | a sweep that leaves all frames where they were has moved no box |
| GroupFrames.SweptClear | frontend/js/diagrams.js:424-450 | after the sweep every two frames are clear of each other, whatever their order |
| GroupFrames.SweepRestsIff | frontend/js/diagrams.js:424-450 | the sweep leaves frames and boxes where they were exactly when every two frames were clear of each other to begin with |
| GroupFrames.SweptJustEnough | frontend/js/diagrams.js:424-450 | a frame that was moved stands exactly 18 behind a frame it overlaps across the flow |
| GroupFrames.SweepMovesGroups | frontend/js/diagrams.js:439-447 | any sweep moves all members of a group alike and leaves every box outside the frames where it was |
| FrameSpacing.MembersApart | frontend/js/diagrams.js:388-450 | boxes of two clear frames are 50 apart on an axis left to right and 32 top to bottom |
| FrameSpacing.LayeredFrames | frontend/js/diagrams.js:304-406 | when each framed group keeps to one rank, the frames of the lanes are clear exactly when groups of a rank do not interleave and, left to right, have another box between them |
| WideGroups.SpreadFrames | frontend/js/diagrams.js:304-406 | groups over any ranks, no member pinned: the frames of the lanes are clear exactly when every two groups are apart in ranks or, across the flow, beside one another with room for both paddings |
| WideGroups.AheadIsBelow | frontend/js/diagrams.js:318-406 | along the flow one frame ends the group gap before another exactly when all its ranks come first |
| WideGroups.BehindIsBeside | frontend/js/diagrams.js:345-406 | across the flow one frame ends before another exactly when the centred lanes leave room for the paddings between their boxes |
| DiagramLayout.ComputeLayout | frontend/js/diagrams.js:258-460 | the drawing is the arranged one, whose lanes are tidy, with the frames of the groups, swept: frames end up clear of one another, pushed no further than needed, and wrap their members exactly when their ids are distinct; the canvas is the least that leaves 32 behind every box and frame, at least 120; boxes are inside the canvas with the margin, frames too exactly when a node names a group or there is none; boxes that move alike keep the lanes' gap and their acyclic edges run forward, boxes of different frames are at least 50 or 32 apart; the sweep moves nothing exactly when the arranged frames were clear, and then all unpinned boxes are a gap apart and all acyclic edges run forward; without pinned members that is so exactly when the groups are apart in ranks or beside one another, and for groups in one rank each exactly when they are untangled in the specification |
| DiagramLayout.SpacingSurvives | frontend/js/diagrams.js:412-450 | whatever the sweep moves, boxes of one group and boxes outside all frames keep the spacing and the edge direction of the lanes among themselves, and boxes of different frames are well apart |
| DiagramLayout.RestsIffClear | frontend/js/diagrams.js:424-450 | the drawing after the sweep is the one before it exactly when the frames were clear |
| DiagramLayout.ClearIffUntangled | frontend/js/diagrams.js:304-450 | for groups that keep to one rank the arranged frames are clear exactly when the specification is untangled |
| DiagramLayout.ClearIffSpread | frontend/js/diagrams.js:304-450 | for groups over several ranks the arranged frames are clear exactly when the groups are spread over ranks and lanes |
| DiagramLayout.Arrange | frontend/js/diagrams.js:299-385 | the boxes stand where ranks, lanes, centring, pins and one common shift put them, on each axis that is free; lanes are tidy, that is 56 or 76 apart, evenly spaced and with one middle; unpinned boxes are a gap apart, acyclic edges run forward, and the least coordinates are 32, or 48 and 72 when a node names a group |
| DiagramLayout.Picture.PlaceLanes | frontend/js/diagrams.js:318-353 | stacking the lanes puts every box at the flow and side coordinate of its row |
| DiagramLayout.Picture.CenterLanes | frontend/js/diagrams.js:356-368 | each lane is moved across the flow by half of what it is shorter than the span, and nothing else moves; `Tidiness.LaidIsTidy` says what that looks like |
| DiagramLayout.Picture.ApplyPins | frontend/js/diagrams.js:369-374 | pinned coordinates replace the computed ones, each axis by itself |
| DiagramLayout.Picture.Normalize | frontend/js/diagrams.js:376-385 | one common shift makes the least coordinate of each axis its padding |
| DiagramLayout.WrapGroups | frontend/js/diagrams.js:388-406 | a frame for every listed group with members, in order, the padded bounding box of those members |
| DiagramLayout.SortFrames | frontend/js/diagrams.js:425-426 | a stable sort of the frames along the flow |
| DiagramLayout.Picture.SweepFrames | frontend/js/diagrams.js:412-450 | sweeping the sorted frames in place gives the positions of the sweep function |
| DiagramLayout.SweptWrap | frontend/js/diagrams.js:412-450 | after the sweep every frame wraps its members exactly when no two frames share an id |
| DiagramLayout.NearMargins | frontend/js/diagrams.js:376-385 | boxes keep the near margins; frames keep them exactly when some node names a group or there are no frames |
| DiagramLayout.Canvas | frontend/js/diagrams.js:452-460 | the canvas side is the greatest far edge plus the margin, at least 120 |
| DiagramLayout.FrameGroups | frontend/js/diagrams.js:388-460 | for any normalised boxes, pinned ones included: a frame around every listed group with members, then the sweep over them in order, and the frame and canvas claims of `ComputeLayout` |
| DiagramLayout.SameArcs | frontend/js/diagrams.js:300-302 | dropping the edges with an unknown end changes no arc of the graph that is ranked |
| LayoutExamples.SweptOntoBox | frontend/js/diagrams.js:304-450 | on a concrete acyclic specification every drawing covers an ungrouped box with a moved one and has an edge that does not run forward |
| LayoutExamples.DrawSample | frontend/js/diagrams.js:258-460 | such a specification laid out: two boxes overlap |
| LayoutExamples.EmptyGroupId | frontend/js/diagrams.js:376-406 | a listed group with the empty id frames an ungrouped box past the canvas margin |
| LayoutExamples.RepeatedGroupId | frontend/js/diagrams.js:412-450 | a group listed twice has a frame that does not wrap its box |
| MarkdownStream.ChunkingIsIrrelevant | frontend/js/messages.js:1646-1721 | whatever prefixes of a text are rendered first, they and the flush get through exactly when no code block that cannot be highlighted is closed or left open; and as long as no render throws, the flush ends as one flush of the whole text does, throwing or not, except exactly when all of the text, final newline included, was rendered into an open code block with a line in it |
| MarkdownStream.FlushFresh | frontend/js/messages.js:1680-1721 | one flush of a text throws exactly when some code block that cannot be highlighted is closed or left open, and otherwise gives the blocks of all its lines |
| MarkdownStream.ThrowsForEver | frontend/js/messages.js:1646-1721 | on a growing text, once a render has thrown, every later render and the flush throw too and nothing more is consumed |
| MarkdownStream.StreamingIsChunkFree | frontend/js/messages.js:1646-1721 | a growing chain of prefixes whose last piece is not the whole text, ending a line, gets through with the blocks of one flush exactly when every code block can be highlighted |
| MarkdownStream.UnfinishedIsChunkFree | frontend/js/messages.js:1646-1721 | a text not ending in a newline may be cut up in any way, and gets through with the blocks of one flush exactly when every code block can be highlighted |
| MarkdownStream.RenderAllTracks | frontend/js/messages.js:1646-1678 | up to the first render that throws the blocks are those of exactly the complete lines consumed, and that render is the first piece whose complete lines close a code block that cannot be highlighted |
| MarkdownStream.GrowingCommits | frontend/js/messages.js:1665-1675 | on a growing text exactly the complete lines of the latest piece that went through have been consumed; behind a throw the text is stuck in the open block |
| MarkdownStream.EmptyLineMatters | frontend/js/messages.js:1549-1565 | one more empty line changes the finished blocks exactly when it lands in a code block that has a line already |
| MarkdownElement.Element.AppendLine | frontend/js/messages.js:1546-1644 | appending a line through the renderer's references takes the element and its open block to the next state of the line machine, or throws and leaves them, exactly when the line closes a block that cannot be highlighted |
| MarkdownElement.Element.BuildTable | frontend/js/messages.js:1497-1516 | pending rows are rendered into the open table, only its very first row as a header |
| MarkdownElement.Element.OpenCodeBlock | frontend/js/messages.js:1518-1544 | an empty code block of the given language is appended and taken as the open block |
| MarkdownElement.Element.AppendLines | frontend/js/messages.js:1672-1674 | a loop over lines runs the line machine up to the first line that throws |
| MarkdownElement.Element.RenderIncremental | frontend/js/messages.js:1646-1678 | a render commits exactly the complete lines of what is pending and starts over on a shorter text; a throw leaves the lines before it appended and the length where it was |
| MarkdownElement.Element.FlushIncremental | frontend/js/messages.js:1680-1721 | a flush styles the rest, closes what is open and drops trailing breaks, or throws on a block that cannot be highlighted; without a renderer it does nothing; `MarkdownDocuments.DocumentRenders` says which blocks |
| MarkdownBatch.FormatMessage | frontend/js/messages.js:1360-1459 | the three pending buffers and their flushes produce the blocks of the batch machine over the lines without trailing newlines, or nothing at all when a flush throws; `MarkdownDocuments.DocumentRenders` says which blocks |
| MarkdownBatch.FormatLine | frontend/js/messages.js:1422-1453 | one turn of the loop, `continue` by `continue`, is one step of the batch machine, and throws exactly when it closes a block that cannot be highlighted |
| MarkdownBatch.FormatGetsThrough | frontend/js/messages.js:1360-1459 | the one-shot rendering returns something exactly when every code block can be highlighted, which is when one flush of the text gets through |
| MarkdownBatch.StepAgrees | frontend/js/messages.js:1422-1453 | one line takes a batch state and a streaming state that agree to states that agree, throws in both or in neither, and never leaves a list and table rows pending together |
| MarkdownBatch.RunAgrees | frontend/js/messages.js:1422-1453 | so any lines do, from the start, as far as they get |
| MarkdownBatch.StreamingEqualsBatch | frontend/js/messages.js:1360-1459 | streaming and one-shot rendering both get through and their blocks agree, header cells aside and with the one-shot trailing breaks removed, exactly when every code block can be highlighted and no newlines trail behind an open one, other than a single one right behind its fence |
| MarkdownBatch.OrdinaryEnd | frontend/js/messages.js:1360-1459 | for a text whose last line is neither blank nor a table separator both get through and agree, header cells aside, exactly when every code block can be highlighted |
| MarkdownBatch.StreamedEqualsFormatted | frontend/js/messages.js:1646-1721 | any streaming of such a text, flushed, gets through with the blocks of the one-shot rendering, header cells aside, exactly on the same condition |
| MarkdownForms.ReadsRow | frontend/js/messages.js:1400-1413 | a line reads as a table row with certain cells exactly when, trimmed, it is a bar, pieces without bars joined by bars, and a bar, each cell its piece trimmed, and it is no rule |
| MarkdownForms.ReadsRule | frontend/js/messages.js:1408-1408 | a line is a rule exactly when, trimmed, it has only dashes, colons, bars and white space between two bars |
| MarkdownForms.ReadsHead | frontend/js/messages.js:1415-1445 | a line is a heading of a level and title exactly when, trimmed, it is that many hashes, a white space and the title |
| MarkdownForms.ReadsFence | frontend/js/messages.js:1446-1447 | a line opens a code block of a language exactly when, trimmed, it is three backquotes and that word |
| MarkdownForms.ReadsItem | frontend/js/messages.js:1448-1450 | a line is an item with a text exactly when, trimmed, the text stands behind a dash and a space, or behind digits, a dot and white space up to a line terminator |
| MarkdownForms.ReadsPlain | frontend/js/messages.js:1451-1452 | a line is a paragraph exactly when it is not blank and of none of the other forms |
| MarkdownForms.TrimIs | frontend/js/messages.js:1423-1423 | trimming leaves exactly the part between the outermost visible characters |
| MarkdownDocuments.DocumentRenders | frontend/js/messages.js:1360-1721 | for every message composed of paragraphs, blank lines, headings, lists, tables and closed code blocks both renderers give one block per part, with the paragraph's line, the heading's level and title, the items, the cells row by row, and the code lines joined by newlines; a table has a header row at once if it has a rule, and streamed if a rule came before its first row |
| MarkdownDocuments.PartStreams | frontend/js/messages.js:1546-1644 | the streaming machine turns the lines of one part into its block |
| MarkdownDocuments.PartBatches | frontend/js/messages.js:1422-1453 | so does the loop of the one-shot renderer |
| MarkdownHeaders.StreamingIsFormat | frontend/js/messages.js:1360-1459 | both renderings get through with equal blocks, cell by cell, the one-shot trailing breaks removed, exactly when every code block can be highlighted, no newlines trail behind an open one, other than a single one right behind its fence, and every table has a separator before it just when one falls between the previous table's end and its own |
| MarkdownHeaders.RunsTrack | frontend/js/messages.js:1567-1594 | line by line, the header rows of both renderers are those the separators seen so far make |
| MarkdownHeaders.StreamedIsFormatted | frontend/js/messages.js:1646-1721 | for a text whose last line is neither blank nor a table separator, any streaming of it, flushed, gets through and equals the one-shot rendering exactly when every code block can be highlighted and its tables' separators count alike |
| MarkdownHeaders.UsualTable | frontend/js/messages.js:1428-1438 | a row, a separator and a row: the separator counts for one renderer and not for the other |
| MarkdownExamples.OpenFenceStreamed | frontend/js/messages.js:1646-1721 | an open fence with a line and its newline, rendered whole and then flushed, gets through but differs from the text flushed at once |
| MarkdownExamples.OpenFenceFormatted | frontend/js/messages.js:1360-1459 | on the same text the streamed and the one-shot blocks differ |
| MarkdownExamples.TableFormatted | frontend/js/messages.js:1428-1438 | on a table of two rows and a separator the two renderings agree in their cells and differ in the header row |
| MarkdownExamples.ThrownFenceStreamed | frontend/js/messages.js:1549-1565 | a closed fence of an inherited name with more behind it: rendering up to the closing line throws, the flush appends the lines a second time and throws, one flush shows them once and throws, and the one-shot rendering returns nothing |
| MarkdownExamples.AThrownFence | frontend/js/messages.js:1743-1743 | such a text with the language `constructor` |
| MarkdownExamples.AnOpenFence | frontend/js/messages.js:1549-1616 | a concrete text with an open fence |
| MarkdownExamples.ASmallTable | frontend/js/messages.js:1428-1438 | a concrete text that is such a table |
| Entities.DecodeUndoesEscapeAttr | frontend/js/utils.js:36-43 | decoding the entities of an escaped attribute gives the string back, for every string |
| Entities.DecodeUndoesEscapeText | frontend/js/messages.js:1745-1747 | the same for the three-character escaping of the highlighter |
| Entities.EscapeAttrIsSafe | frontend/js/utils.js:36-43 | an escaped attribute holds no quote and no angle bracket |
| Entities.Decode | frontend/js/messages.js:1308-1315 | one whole-string replacement decodes exactly the entity it is for and leaves the codes of all other characters alone |
| CodeHighlight.HighlightCode | frontend/js/messages.js:1731-1814 | the look-up of the keyword list throws for an inherited name, and otherwise the scanning loop ends and prints exactly the tokens of the code |
| CodeHighlight.HighlightIsLossless | frontend/js/messages.js:1731-1814 | there is markup, and deleting its tags and unescaping the rest gives the code back, unterminated strings included, exactly when the language, in lower case, is neither `constructor` nor `__proto__` |
| CodeHighlight.ConstructorFence | frontend/js/messages.js:1743-1743 | a line that opens a code block of such a language, for which highlighting throws whatever the code |
| CodeHighlight.TokensCoverCode | frontend/js/messages.js:1757-1812 | the tokens, one after the other, are the code |
| CodeHighlight.TokenShape | frontend/js/messages.js:1758-1811 | comments end at a line end, keywords and numbers are whole words, keywords are in the language's list and other words are not, a string that ends before the code does ends with its quote |
| HighlightRules.TokenFollows | frontend/js/messages.js:1757-1812 | at every place: two slashes, or a hash at a line start, begin a comment up to the line end; otherwise a quote begins a string up to its first unescaped match; otherwise a whole number is a number, a whole word a keyword exactly when it is in the list, and nothing else has a class |
| HighlightRules.FollowsOnce | frontend/js/messages.js:1757-1812 | those rules leave no choice of class or end |
| HighlightRules.ReadOnce | frontend/js/messages.js:1757-1812 | only one sequence of tokens follows the rules from the start to the end of the code |
| HighlightRules.HighlightFollowsRules | frontend/js/messages.js:1731-1814 | the markup is that sequence, token by token, escaped, in spans of the classes `token-comment`, `token-string`, `token-number` and `token-keyword` |
| HighlightRules.WordLists | frontend/js/messages.js:1732-1739 | the six languages with a list, and the words of each |
| GoalCommand.ParseGoalCommand | frontend/js/goals.js:3-26 | the statements that reassign the rest and the budget compute the parse function |
| GoalCommand.CreateRoundTrip | frontend/js/goals.js:253-255 | the editor's command parses to a creation with the trimmed draft and the budget it was printed with, for every non-blank draft and budget |
| GoalCommand.ActionRoundTrip | frontend/js/goals.js:218-223 | the panel's commands parse to their own action, and resuming to its budget |
| GoalCommand.PlainObjective | frontend/js/goals.js:7-20 | an objective typed without a budget comes back as written exactly when it starts with no action word and no option |
| GoalGrammar.ParseMeans | frontend/js/goals.js:3-26 | every text parses to what it is composed of: the command word, an action word or nothing or an objective, an option with its number, and the rest; with the refusal for a bad number, a missing objective or anything behind an action that takes nothing |
| GoalGrammar.BareGoal | frontend/js/goals.js:7-8 | the bare command asks for the status |
| GoalGrammar.TakesNothing | frontend/js/goals.js:22-24 | `status`, `pause` and `clear` refuse an objective behind them |
| SessionReload.RunsAreSound | frontend/js/app.js:617-640 | in every interleaving loads never overlap, none starts within 400 ms of an earlier end, and an unserved call is remembered by the pending flag under a load or by an armed timer |
| SessionReload.WaitingCallsAreServed | frontend/js/app.js:617-640 | in runs in which a load takes at most `longest` and a timer is at most `late`, every call not served yet was made at most `longest` plus two gaps plus `late` ago |
| SessionReload.FiringServes | frontend/js/app.js:833-840 | a timer that goes off when no load ended since it was armed starts the load that serves all calls; during a load it leaves the pending flag set |
| SessionReload.EventDoes | frontend/js/app.js:617-640 | in every run: a call or a firing timer starts a load at once, remembers itself behind a running one, or arms the timer within 400 ms of the last end; a settled load arms it for a pending call |
| SessionReload.SessionList.LoadSessions | frontend/js/app.js:617-630 | the guards set the pending flag, arm the timer or start a load, as the step function says |
| SessionReload.SessionList.LoadSettled | frontend/js/app.js:824-831 | settling clears the flag in flight, stamps the time and arms the timer for a pending call |
| SessionReload.SessionList.TimerFired | frontend/js/app.js:836-839 | the timer clears itself and calls for a load |
| DeviceFlow.FlowKeepsPolling | frontend/js/github.js:532-592 | in every run at most one timer and one poll exist, an active flow has one of them, and 41 failures in a row have ended the flow |
| DeviceFlow.ActiveIsOngoing | frontend/js/github.js:465-609 | in every run a flow is on exactly from when its card is shown until it is cancelled, completed, expired, gone, or fails for the forty-first time in a row |
| DeviceFlow.EventDoes | frontend/js/github.js:465-609 | in every run, what each event does to the flow, its timer, its polls and its failures |
| DeviceFlow.TransientFailureContinues | frontend/js/github.js:575-592 | a failure within the limit keeps the flow alive with a fresh timer |
| DeviceFlow.RunsAreSound | frontend/js/github.js:465-609 | the invariant behind both, over every sequence of shows, cancels, wake-ups, timer firings, answers and failures |
| DeviceFlow.GithubPane.ScheduleDevicePoll | frontend/js/github.js:532-544 | clears the old timer before arming a new one, and does nothing without a flow |
| DeviceFlow.GithubPane.PollAnswered | frontend/js/github.js:546-565 | the answer's branches: completed, expired, still pending |
| DeviceFlow.GithubPane.PollFailed | frontend/js/github.js:566-588 | the failure's branches: nothing to poll, one too many, retry; and the rescheduling afterwards |
| DeviceFlow.GithubPane.CancelDeviceFlow | frontend/js/github.js:594-609 | ends the flow, resets the failures and clears the timer |
| KeyStore.ListKeyCandidates | src/config.rs:193-230 | the non-blank trimmed keys of an entry, inline first, each once |
| KeyStore.CandidateSet | src/config.rs:193-230 | exactly the trimmed non-blank keys of the three sources, without repetition |
| KeyEffects.CandidateOrder | src/config.rs:214-229 | they are tried inline key first, then the further ones, then those of the auth file, each where it first occurs |
| KeyEffects.GoesByItsId | src/config.rs:195-201 | an entry goes by its trimmed id, or by its type when that is blank |
| KeyStore.SaveLoadRoundTrip | src/auth_store.rs:34-104 | reading back what was saved gives every trimmed non-blank key of every non-blank id and nothing else |
| KeyStore.MoveInline | src/auth_store.rs:108-145 | the loop deposits inline keys into the tables, clears them, and reports a move exactly when a table lacked one |
| KeyStore.DepositAllKeys | src/auth_store.rs:115-134 | each table ends up with what it held and all inline keys of its id; nothing counts as moved exactly when all were stored already |
| KeyStore.Files.Load | src/config.rs:1884-1927 | the two files and the configuration in memory after a load, the folded legacy block with its default provider and model included, whichever writes succeed |
| KeyEffects.LoadCarries | src/config.rs:1884-1926 | a load keeps entries, ids, types, models, the legacy block and the defaults, fills the defaults from a folded legacy block, empties inline keys, rewrites the config file exactly when it may and has a reason, and fails exactly when it has one and may not |
| KeyEffects.LearnedInOrder | src/config.rs:1891-1904 | a load that moves nothing leaves each entry its stored keys in ascending order |
| KeyEffects.LegacyLearns | src/config.rs:1892-1904 | the legacy block learns the keys stored under its name |
| KeyStore.KeysAfterLoad | src/config.rs:1884-1927 | the keys an entry can use after a load are exactly those its table held and, if the auth file was written and the id is not blank, the inline keys of all entries of that id |
| KeyStore.KeyConservation | src/config.rs:1888-1926 | no key an entry could use is lost exactly when its inline keys were stored already, or the auth file was written and its id is not blank |
| KeyStore.SecondLoadIsQuiet | src/config.rs:1888-1926 | after a load whose writes succeeded, the next load rewrites neither file |
| KeyStore.FailedConfigSaveSticks | src/auth_store.rs:106-141 | after a failed config save the next load finds keys to move exactly when an entry with a blank effective id holds a non-blank inline key; otherwise, unless another migration is due, it changes neither file |
| KeyStore.KeptInConfig | src/config.rs:1888-1926 | the config file holds a key inline after the load exactly when its legacy block did, or it was not rewritten and an entry did |
| KeyStore.KeptInAuth | src/auth_store.rs:108-145 | the auth file holds a key after the load exactly when it did before, under an id that is not blank once it is rewritten, or it was rewritten and an entry of a non-blank id had the key inline |
| KeyStore.LostKey | src/auth_store.rs:108-145 | an inline key is in neither file after the load exactly when the config file was rewritten, the legacy block lacks the key, and the auth file neither kept nor gained it |
| KeyStore.LostWithoutAuthWrite | src/auth_store.rs:135-141 | a concrete disk, with an unwritable auth file and another migration due, whose only key is in neither file after the load |
| KeyStore.LegacyKeyStays | src/auth_store.rs:139-141 | a concrete disk on which both writes succeed and the saved config file still holds the legacy block's key |
| SecretRedaction.RoundTrip | src/config.rs:1767-1857 | restoring a redacted copy from its original gives the original exactly when every entry agrees in its hidden fields with the first entry that answers to its identity, and servers of one name share their maps |
| SecretRedaction.DistinctRoundTrip | src/config.rs:2557-2560 | it does whenever no two providers share type and address, no explicit id is another's effective id, and server names are distinct |
| SecretRedaction.SharedEndpointSwapsKeys | src/config.rs:2557-2560 | two providers on one endpoint: the second comes back with the first one's key |
| SecretRedaction.Incoming.PreserveSecretsFrom | src/config.rs:1796-1857 | the in-place restoration field by field, with the first matching entry as the source |
| SecretEffects.RedactedHides | src/config.rs:1767-1792 | what goes out has no password, token, key, client secret, header or environment in any section or entry, and all the rest unchanged |
| SecretEffects.PreservedFills | src/config.rs:1796-1857 | what comes back is filled, field by field and only where empty, from the first live entry of the same name or of the same type and address, servers by name |
| SecretEffects.MatchIs | src/config.rs:2557-2560 | two entries are the same exactly when the left one has an id and both go by one name, or they share type and address |
| SecretRedaction.TypedSecretsWin | src/config.rs:1796-1857 | every restored field that came in filled is kept, in all sections and entries, and the settings shown next are those sent exactly when no visible field was left empty that the matched live entry fills |
| SecretRedaction.EmptiedModelsReturn | src/config.rs:2575-2580 | a provider sent without models shows the live ones afterwards |
| Workspaces.OperationsKeepConsistency | src/config.rs:2339-2495 | from any state at all, after any operations at any times, refused ones included, ids are distinct, the default workspace exists and the active id is a member |
| Workspaces.EnsureConsistent | src/config.rs:2158-2254 | putting any list in order makes it consistent |
| Workspaces.EnsureTwice | src/config.rs:2158-2254 | doing it twice, at any later time, is doing it once exactly when the workspace path is not blank, or there is no home directory, or the default and the active workspace each name a directory |
| Workspaces.BlankWorkspaceMoves | src/config.rs:2161-2166 | an empty configuration with a home directory changes again on the second run |
| Workspaces.EnsuredEntry | src/config.rs:2168-2233 | each entry of the ordered list is the first entry of its non-blank id put in order, or the default workspace that was missing |
| Workspaces.AddThenRemove | src/config.rs:2339-2358 | removing a workspace just added leaves what ordering the list leaves, whatever was added |
| WorkspaceSettings.CleanList | src/config.rs:2168-2214 | the cleaning loop with its set of ids keeps the first entry of every non-blank id |
| WorkspaceSettings.Settings.MigrateWorkspacePaths | src/config.rs:2050-2079 | every workspace in place gets its paths from its old single path, expanded, blank ones dropped, and its path resolved |
| WorkspaceSettings.Settings.EnsureWorkspaceDefaults | src/config.rs:2158-2254 | the method leaves the state of the ordering function, and the list, active id and path it is told by |
| WorkspaceEffects.EnsureTidies | src/config.rs:2158-2254 | the list after ordering: the first entry of each visible id, in order, with its visible paths expanded, or its old single path, or the fallback for the default one; the default workspace last if it was missing; the active id and the path of the active workspace |
| WorkspaceEffects.RemovePathIs | src/config.rs:2408-2435 | removing path `index` refuses an unknown id, a last path and an index out of bounds, and otherwise leaves the paths before it, moves those behind it up, resolves the path again and touches nothing else |
| WorkspaceEffects.AddPathIs | src/config.rs:2386-2406 | adding a path refuses an unknown id, and otherwise leaves the visible ones of the old paths and the expanded new one |
| WorkspaceEffects.UpdatePathIs | src/config.rs:2437-2465 | replacing a path refuses an unknown id and an index out of bounds, and otherwise puts the expanded path in its place, dropping it if blank |
| WorkspaceEffects.AddIs | src/config.rs:2339-2358 | adding refuses a taken id, and otherwise puts the workspace last, its visible paths expanded and resolved and its creation date filled in |
| WorkspaceEffects.UpdateIs | src/config.rs:2360-2384 | updating refuses an unknown id, and otherwise replaces the workspace in its place, keeping the creation date when none came in |
| WorkspaceEffects.RemoveIs | src/config.rs:2474-2495 | removing refuses the default workspace and an unknown id, and otherwise leaves all other workspaces in order and makes the default one active if the active one went |
| WorkspaceSettings.Settings.AddWorkspace | src/config.rs:2339-2358 | appends the accepted workspace to the ordered list, or refuses a taken id |
| WorkspaceSettings.Settings.UpdateWorkspace | src/config.rs:2360-2384 | replaces the workspace of that id, keeping its creation date when the new one is blank, or refuses an unknown id |
| WorkspaceSettings.Settings.AddWorkspacePath | src/config.rs:2386-2406 | appends the expanded path unless blank and resolves the workspace's path again, or refuses |
| WorkspaceSettings.Settings.RemoveWorkspacePath | src/config.rs:2408-2435 | drops exactly the path at the index, those before it unchanged and those behind it moved up, but neither the last one nor one out of bounds |
| WorkspaceSettings.Settings.UpdateWorkspacePath | src/config.rs:2437-2465 | replaces one path, dropping it when blank, or refuses |
| WorkspaceSettings.Settings.RemoveWorkspace | src/config.rs:2474-2495 | drops the workspace and falls back to the default one if it was active; refuses the default and unknown ids |
| RustText.BlankIsBlank | src/config.rs:2161-2161 | trimming leaves nothing exactly when every character is white space |

## Left out

- Text is a sequence of characters; UTF-16 code units, Unicode case folding beyond ASCII and invalid surrogates are not modelled.
- Diff: the worker and its job map, the 20,000-line preview limit, the header string and the table markup; a context that is negative or fractional, and lines that are `null`.
- DiffPatch.ShowDiff: does not model the worker round trip between computing and grouping.
- Diagrams: box widths and heights are given positive numbers, since they come from wrapped label text; coordinates are exact numbers, so rounding, NaN and infinities are absent; edge routing and drawing.
- DiagramLayout.ComputeLayout: boxes and frames are coordinate sequences of one object instead of objects of their own, so aliasing between `boxes`, lanes and frames is not captured; between a moved box and a box that does not move with it no spacing is claimed, because the code keeps none (`LayoutExamples.SweptOntoBox`).
- DiagramLayout.SameArcs: edge ends and node ids are both strings, as the server sends them; the code keeps edges by `String(edge.from)` and ranks them by the raw value, so a numeric end would be drawn and never ranked.
- Messages: inline formatting and HTML escaping are the identity on a line, `stripSpeakBlock` is not applied, and code inside blocks is compared as text before highlighting.
- MarkdownElement.Element.FlushIncremental: what a caller does with a thrown error, and renders after a flush, are not modelled.
- MarkdownDocuments.DocumentRenders: a message that ends inside a code block, and a rule without a table row, are not among the parts, and one-shot blocks are given for messages that do not end in an empty line; `MarkdownHeaders.StreamingIsFormat` speaks of those too.
- MarkdownBatch.StreamingEqualsBatch: header cells are set aside here, because the two renderers choose them differently; `MarkdownHeaders.StreamingIsFormat` has the exact condition with them.
- MarkdownBatch.StepAgrees: header cells are set aside; `MarkdownHeaders.RunsTrack` follows them on both sides.
- MarkdownBatch.RunAgrees: header cells are set aside; `MarkdownHeaders.RunsTrack` follows them on both sides.
- MarkdownBatch.OrdinaryEnd: header cells are set aside; `MarkdownHeaders.StreamedIsFormatted` has them.
- MarkdownBatch.StreamedEqualsFormatted: header cells are set aside; `MarkdownHeaders.StreamedIsFormatted` has them.
- Configuration: files are abstract values whose writes succeed or fail as given; TOML, serde defaults, permissions, `canonicalize` and environment variables are absent; the other migrations of `load` are one flag.
- SecretRedaction.Incoming.PreserveSecretsFrom: all settings that are neither redacted nor restored are one opaque field.
- WorkspaceSettings.Settings.EnsureWorkspaceDefaults: reads the clock once a call, and a home directory does not itself start with `~` or white space.
- SessionReload.RunsAreSound: prefetched sessions count as a load that settles at once; rendering the list is not modelled.
- SessionReload.WaitingCallsAreServed: a timer never goes off early, and the bounds on loads and on late timers are parameters of the run.
- DeviceFlow.RunsAreSound: messages, the browser window and the server's cancel request are not modelled; delays matter only through the order of events.
- GoalCommand.ActionRoundTrip: the rounds field holds a number written in decimal; what the server does with a command is not modelled.
- Workspace look-ups by path, permission rules, todos, questions, file tabs and the remaining settings: mostly single-branch facts.
- The agent, workflow and scheduler back ends, and the reducer of live events.
