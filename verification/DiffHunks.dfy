/**
 Context hunks (frontend/js/diff.js:44-100): changed lines grow into ranges, close ranges merge, and
 each range becomes a numbered hunk. A patch reader, written independently, is the reference.
*/
module DiffHunks {
  import opened LineDiff

  datatype Range = Range(start: nat, end: nat)

  datatype Hunk = Hunk(oldStart: nat, oldCount: nat, newStart: nat, newCount: nat, lines: seq<Line>)

  // ---- which lines a hunk view must show ----------------------------------

  predicate IsChange(lines: seq<Line>, c: nat) {
    c < |lines| && lines[c].kind != Ctx
  }

  /** Line `k` lies within `context` lines of the change `c`. */
  predicate Near(context: nat, c: int, k: int) {
    c - context <= k <= c + context
  }

  /** Line `k` is within `context` lines of a change at an index below `limit`. */
  ghost predicate ShownBy(lines: seq<Line>, context: nat, limit: nat, k: nat) {
    k < |lines| && exists c: nat :: c < limit && IsChange(lines, c) && Near(context, c, k)
  }

  ghost predicate Shown(lines: seq<Line>, context: nat, k: nat) {
    ShownBy(lines, context, |lines|, k)
  }

  predicate InRange(r: Range, k: nat) { r.start <= k <= r.end }

  ghost predicate Covered(ranges: seq<Range>, k: nat) {
    exists r :: 0 <= r < |ranges| && InRange(ranges[r], k)
  }

  /** In order, disjoint, and with at least one line between neighbours. */
  ghost predicate Apart(ranges: seq<Range>) {
    && (forall r :: 0 <= r < |ranges| ==> ranges[r].start <= ranges[r].end)
    && (forall r, q :: 0 <= r < q < |ranges| ==> ranges[r].end + 1 < ranges[q].start)
  }

  /** The ranges are the maximal runs of shown lines. */
  ghost predicate Exact(ranges: seq<Range>, lines: seq<Line>, context: nat) {
    && Apart(ranges)
    && forall k: nat :: Covered(ranges, k) <==> Shown(lines, context, k)
  }

  /** Exactness leaves no freedom: two exact lists of ranges are the same list. */
  lemma {:induction false} ExactUnique(p: seq<Range>, q: seq<Range>)
    requires Apart(p) && Apart(q)
    requires forall k: nat :: Covered(p, k) <==> Covered(q, k)
    ensures p == q
    decreases |p|
  {
    if |p| == 0 {
      if |q| > 0 {
        assert InRange(q[0], q[0].start) && Covered(q, q[0].start);
      }
    } else {
      assert InRange(p[0], p[0].start) && Covered(p, p[0].start);
      assert |q| > 0;
      SameFirst(p, q);
      forall k: nat ensures Covered(p[1..], k) <==> Covered(q[1..], k) {
        TailCovers(p, k);
        TailCovers(q, k);
      }
      ExactUnique(p[1..], q[1..]);
    }
  }

  lemma FirstRange(p: seq<Range>)
    requires Apart(p) && |p| > 0
    ensures forall k: nat :: InRange(p[0], k) ==> Covered(p, k)
    ensures forall k: nat :: Covered(p, k) ==> k >= p[0].start && k != p[0].end + 1
  {
  }

  lemma SameFirst(p: seq<Range>, q: seq<Range>)
    requires Apart(p) && Apart(q) && |p| > 0 && |q| > 0
    requires forall k: nat :: Covered(p, k) <==> Covered(q, k)
    ensures p[0] == q[0]
  {
    FirstRange(p);
    FirstRange(q);
    assert Covered(p, p[0].start) && Covered(q, q[0].start);
    assert p[0].start == q[0].start;
    assert !Covered(q, p[0].end + 1) && !Covered(p, q[0].end + 1);
    assert !InRange(q[0], p[0].end + 1) && !InRange(p[0], q[0].end + 1);
  }

  lemma TailCovers(p: seq<Range>, k: nat)
    requires Apart(p) && |p| > 0
    ensures Covered(p[1..], k) <==> Covered(p, k) && k > p[0].end
  {
    if Covered(p[1..], k) {
      var r :| 0 <= r < |p| - 1 && InRange(p[1..][r], k);
      assert InRange(p[r + 1], k);
    }
    if Covered(p, k) && k > p[0].end {
      var r :| 0 <= r < |p| && InRange(p[r], k);
      assert InRange(p[1..][r - 1], k);
    }
  }

  // ---- building the ranges ---------------------------------------------------

  /** The indices of the changed lines, ascending. */
  ghost predicate Changes(changed: seq<nat>, lines: seq<Line>, limit: nat) {
    && (forall i, j :: 0 <= i < j < |changed| ==> changed[i] < changed[j])
    && (forall i :: 0 <= i < |changed| ==> changed[i] < limit && IsChange(lines, changed[i]))
    && (forall c: nat :: c < limit && IsChange(lines, c) ==> c in changed)
  }

  method CollectChanged(lines: seq<Line>) returns (changed: seq<nat>)
    ensures Changes(changed, lines, |lines|)
  {
    changed := [];
    for i := 0 to |lines|
      invariant Changes(changed, lines, i)
    {
      if lines[i].kind != Ctx {
        changed := changed + [i];
      }
    }
  }

  function MinNat(x: nat, y: nat): nat { if x <= y then x else y }

  function Window(context: nat, n: nat, c: nat): Range
    requires c < n
  {
    Range(if c >= context then c - context else 0, MinNat(n - 1, c + context))
  }

  /** What holds once every change below `limit` has been folded in; `last` is the latest of them. */
  ghost predicate Folded(ranges: seq<Range>, lines: seq<Line>, context: nat, limit: nat, last: nat) {
    && last < limit <= |lines|
    && Apart(ranges)
    && |ranges| > 0
    && ranges[|ranges| - 1].end == Window(context, |lines|, last).end
    && ranges[|ranges| - 1].start <= Window(context, |lines|, last).start
    && forall k: nat :: Covered(ranges, k) <==> ShownBy(lines, context, limit, k)
  }

  lemma WindowShows(lines: seq<Line>, context: nat, c: nat, k: nat)
    requires c < |lines|
    ensures InRange(Window(context, |lines|, c), k) <==> k < |lines| && Near(context, c, k)
  {
  }

  /** Between one change and the next nothing new is shown. */
  lemma SkipContext(lines: seq<Line>, context: nat, from: nat, to: nat, k: nat)
    requires from <= to <= |lines|
    requires forall c: nat :: from <= c < to ==> !IsChange(lines, c)
    ensures ShownBy(lines, context, from, k) <==> ShownBy(lines, context, to, k)
  {
  }

  /** The change at `c` shows its own window besides what was shown before. */
  lemma AddChange(lines: seq<Line>, context: nat, c: nat, k: nat)
    requires IsChange(lines, c)
    ensures ShownBy(lines, context, c + 1, k)
       <==> ShownBy(lines, context, c, k) || InRange(Window(context, |lines|, c), k)
  {
    WindowShows(lines, context, c, k);
  }

  lemma CoveredSnoc(ranges: seq<Range>, r: Range, k: nat)
    ensures Covered(ranges + [r], k) <==> Covered(ranges, k) || InRange(r, k)
  {
    if Covered(ranges, k) {
      var i :| 0 <= i < |ranges| && InRange(ranges[i], k);
      assert InRange((ranges + [r])[i], k);
    }
    if InRange(r, k) {
      assert InRange((ranges + [r])[|ranges|], k);
    }
  }

  /** The fold's step: merge into the last range when the windows touch, else open a new range. */
  function Fold(ranges: seq<Range>, w: Range): seq<Range> {
    if |ranges| > 0 && w.start <= ranges[|ranges| - 1].end + 1 then
      var prev := ranges[|ranges| - 1];
      ranges[..|ranges| - 1] + [prev.(end := if prev.end >= w.end then prev.end else w.end)]
    else ranges + [w]
  }

  lemma FoldCovers(ranges: seq<Range>, w: Range, k: nat)
    requires |ranges| > 0 && Apart(ranges) && ranges[|ranges| - 1].start <= w.start
    ensures Covered(Fold(ranges, w), k) <==> Covered(ranges, k) || InRange(w, k)
  {
    var init, prev := ranges[..|ranges| - 1], ranges[|ranges| - 1];
    assert ranges == init + [prev];
    if w.start <= prev.end + 1 {
      CoveredSnoc(init, prev, k);
      CoveredSnoc(init, prev.(end := if prev.end >= w.end then prev.end else w.end), k);
    } else {
      CoveredSnoc(ranges, w, k);
    }
  }

  lemma FoldApart(ranges: seq<Range>, w: Range)
    requires |ranges| > 0 && Apart(ranges) && w.start <= w.end
    ensures Apart(Fold(ranges, w))
  {
    var next := Fold(ranges, w);
    forall r, q | 0 <= r < q < |next| ensures next[r].end + 1 < next[q].start {
      if q < |ranges| {
        assert ranges[r].end + 1 < ranges[q].start;
      } else if r < |ranges| - 1 {
        assert ranges[r].end + 1 < ranges[|ranges| - 1].start;
      }
    }
  }

  lemma FoldStep(ranges: seq<Range>, lines: seq<Line>, context: nat, last: nat, c: nat)
    requires Folded(ranges, lines, context, c, last) && IsChange(lines, c)
    ensures Folded(Fold(ranges, Window(context, |lines|, c)), lines, context, c + 1, c)
  {
    var w := Window(context, |lines|, c);
    FoldApart(ranges, w);
    forall k: nat ensures Covered(Fold(ranges, w), k) <==> ShownBy(lines, context, c + 1, k) {
      AddChange(lines, context, c, k);
      FoldCovers(ranges, w, k);
    }
  }

  /** Nothing happens to the ranges at unchanged lines. */
  lemma FoldSkip(ranges: seq<Range>, lines: seq<Line>, context: nat, last: nat, from: nat, to: nat)
    requires Folded(ranges, lines, context, from, last) && from <= to <= |lines|
    requires forall c: nat :: from <= c < to ==> !IsChange(lines, c)
    ensures Folded(ranges, lines, context, to, last)
  {
    forall k: nat ensures Covered(ranges, k) <==> ShownBy(lines, context, to, k) {
      SkipContext(lines, context, from, to, k);
    }
  }

  lemma FirstFold(lines: seq<Line>, context: nat, c: nat)
    requires IsChange(lines, c) && forall d: nat :: d < c ==> !IsChange(lines, d)
    ensures Folded([Window(context, |lines|, c)], lines, context, c + 1, c)
  {
    var w := Window(context, |lines|, c);
    forall k: nat ensures Covered([w], k) <==> ShownBy(lines, context, c + 1, k) {
      AddChange(lines, context, c, k);
      CoveredSnoc([], w, k);
      assert [] + [w] == [w];
    }
  }

  /** No change hides between two consecutive entries of `changed`. */
  lemma NoChangeBetween(changed: seq<nat>, lines: seq<Line>, i: nat, d: nat)
    requires Changes(changed, lines, |lines|) && i <= |changed| && d < |lines|
    requires i > 0 ==> changed[i - 1] < d
    requires i < |changed| ==> d < changed[i]
    ensures !IsChange(lines, d)
  {
    forall j | 0 <= j < |changed| ensures changed[j] != d {
      assert j < i ==> changed[j] <= changed[i - 1];
      assert j > i ==> changed[i] < changed[j];
    }
  }

  method BuildRanges(lines: seq<Line>, context: nat, changed: seq<nat>) returns (ranges: seq<Range>)
    requires Changes(changed, lines, |lines|) && |changed| > 0
    ensures Exact(ranges, lines, context)
  {
    ranges := [];
    for i := 0 to |changed|
      invariant i == 0 ==> ranges == []
      invariant i > 0 ==> Folded(ranges, lines, context, changed[i - 1] + 1, changed[i - 1])
    {
      var index := changed[i];
      forall d: nat | d < index && (i > 0 ==> changed[i - 1] < d) ensures !IsChange(lines, d) {
        NoChangeBetween(changed, lines, i, d);
      }
      if i == 0 {
        FirstFold(lines, context, index);
      } else {
        FoldSkip(ranges, lines, context, changed[i - 1], changed[i - 1] + 1, index);
        FoldStep(ranges, lines, context, changed[i - 1], index);
      }
      ranges := PushWindow(ranges, |lines|, context, index);
    }
    ghost var last := changed[|changed| - 1];
    forall d: nat | last < d < |lines| ensures !IsChange(lines, d) {
      NoChangeBetween(changed, lines, |changed|, d);
    }
    FoldSkip(ranges, lines, context, last, last + 1, |lines|);
  }

  /** The body of the loop over `changed`, which widens the last range in place or opens a new one. */
  method PushWindow(before: seq<Range>, n: nat, context: nat, index: nat) returns (ranges: seq<Range>)
    requires index < n
    ensures ranges == Fold(before, Window(context, n, index))
  {
    var start := if index >= context then index - context else 0;
    var end := MinNat(n - 1, index + context);
    if |before| > 0 && start <= before[|before| - 1].end + 1 {
      var prev := before[|before| - 1];
      ranges := before[|before| - 1 := prev.(end := if prev.end >= end then prev.end else end)];
    } else {
      ranges := before + [Range(start, end)];
    }
  }

  // ---- hunks -------------------------------------------------------------------

  /** The old and the new side of numbered lines. */
  function OldTexts(lines: seq<Line>): seq<string> {
    if |lines| == 0 then []
    else (if lines[0].oldNo.Absent? then [] else [lines[0].text]) + OldTexts(lines[1..])
  }

  function NewTexts(lines: seq<Line>): seq<string> {
    if |lines| == 0 then []
    else (if lines[0].newNo.Absent? then [] else [lines[0].text]) + NewTexts(lines[1..])
  }

  /** The first non-zero number on a side, 0 when there is none. */
  function FirstOld(lines: seq<Line>): nat {
    if |lines| == 0 then 0
    else if lines[0].oldNo.At? && lines[0].oldNo.no != 0 then lines[0].oldNo.no
    else FirstOld(lines[1..])
  }

  function FirstNew(lines: seq<Line>): nat {
    if |lines| == 0 then 0
    else if lines[0].newNo.At? && lines[0].newNo.no != 0 then lines[0].newNo.no
    else FirstNew(lines[1..])
  }

  /** Each side falls back on the other, and both on 1. */
  function StartOr(own: nat, other: nat): nat {
    if own != 0 then own else if other != 0 then other else 1
  }

  function HunkOf(part: seq<Line>): Hunk {
    Hunk(StartOr(FirstOld(part), FirstNew(part)), |OldTexts(part)|,
         StartOr(FirstNew(part), FirstOld(part)), |NewTexts(part)|, part)
  }

  function HunksOf(lines: seq<Line>, ranges: seq<Range>): (hunks: seq<Hunk>)
    requires forall r :: 0 <= r < |ranges| ==> ranges[r].start <= ranges[r].end < |lines|
    ensures |hunks| == |ranges|
  {
    seq(|ranges|, r requires 0 <= r < |ranges| => HunkOf(lines[ranges[r].start..ranges[r].end + 1]))
  }

  /** The hunks a reader of the diff is due: one for everything when nothing changed, else one a run. */
  ghost predicate IsHunkView(hunks: seq<Hunk>, lines: seq<Line>, context: nat) {
    if forall c: nat :: !IsChange(lines, c) then
      hunks == [Hunk(1, |OldTexts(lines)|, 1, |NewTexts(lines)|, lines)]
    else
      exists ranges: seq<Range> ::
        && Exact(ranges, lines, context)
        && (forall r :: 0 <= r < |ranges| ==> ranges[r].start <= ranges[r].end < |lines|)
        && hunks == HunksOf(lines, ranges)
  }

  lemma ExactInBounds(ranges: seq<Range>, lines: seq<Line>, context: nat)
    requires Exact(ranges, lines, context)
    ensures forall r :: 0 <= r < |ranges| ==> ranges[r].start <= ranges[r].end < |lines|
  {
    forall r | 0 <= r < |ranges| ensures ranges[r].end < |lines| {
      assert InRange(ranges[r], ranges[r].end);
      assert Covered(ranges, ranges[r].end);
    }
  }

  lemma OldTextsSnoc(lines: seq<Line>, line: Line)
    ensures OldTexts(lines + [line]) == OldTexts(lines) + if line.oldNo.Absent? then [] else [line.text]
  {
    if |lines| > 0 {
      assert (lines + [line])[1..] == lines[1..] + [line];
    }
  }

  lemma NewTextsSnoc(lines: seq<Line>, line: Line)
    ensures NewTexts(lines + [line]) == NewTexts(lines) + if line.newNo.Absent? then [] else [line.text]
  {
    if |lines| > 0 {
      assert (lines + [line])[1..] == lines[1..] + [line];
    }
  }

  /** `filter(line => line.oldNo !== null).length` and the same for the new side. */
  method CountSides(part: seq<Line>) returns (oldCount: nat, newCount: nat)
    ensures oldCount == |OldTexts(part)| && newCount == |NewTexts(part)|
  {
    oldCount, newCount := 0, 0;
    for i := 0 to |part|
      invariant oldCount == |OldTexts(part[..i])| && newCount == |NewTexts(part[..i])|
    {
      OldTextsSnoc(part[..i], part[i]);
      NewTextsSnoc(part[..i], part[i]);
      assert part[..i + 1] == part[..i] + [part[i]];
      if part[i].oldNo.At? { oldCount := oldCount + 1; }
      if part[i].newNo.At? { newCount := newCount + 1; }
    }
    assert part[..|part|] == part;
  }

  /** The loop that looks for the first number of each side and stops once it has both. */
  method FirstNumbers(part: seq<Line>) returns (oldStart: nat, newStart: nat)
    ensures oldStart == FirstOld(part) && newStart == FirstNew(part)
  {
    oldStart, newStart := 0, 0;
    var i := 0;
    assert part[0..] == part;
    while i < |part|
      invariant 0 <= i <= |part|
      invariant if oldStart == 0 then FirstOld(part) == FirstOld(part[i..]) else oldStart == FirstOld(part)
      invariant if newStart == 0 then FirstNew(part) == FirstNew(part[i..]) else newStart == FirstNew(part)
    {
      assert part[i..][1..] == part[i + 1..];
      if oldStart == 0 && part[i].oldNo.At? { oldStart := part[i].oldNo.no; }
      if newStart == 0 && part[i].newNo.At? { newStart := part[i].newNo.no; }
      if oldStart != 0 && newStart != 0 { break; }
      i := i + 1;
    }
  }

  method BuildHunk(part: seq<Line>) returns (hunk: Hunk)
    ensures hunk == HunkOf(part)
  {
    var oldCount, newCount := CountSides(part);
    var oldStart, newStart := FirstNumbers(part);
    if oldStart == 0 && newStart != 0 { oldStart := newStart; }
    if newStart == 0 && oldStart != 0 { newStart := oldStart; }
    hunk := Hunk(if oldStart == 0 then 1 else oldStart, oldCount,
                 if newStart == 0 then 1 else newStart, newCount, part);
  }

  /** What the caller gave for `contextLines`: a number, or anything else. */
  datatype ContextArg = Lines(n: nat) | NotANumber

  function ContextOf(arg: ContextArg): nat {
    match arg
    case Lines(n) => n
    case NotANumber => 3
  }

  /** `OSA.buildDiffHunks`. */
  method BuildDiffHunks(lines: seq<Line>, contextLines: ContextArg) returns (hunks: seq<Hunk>)
    ensures IsHunkView(hunks, lines, if contextLines.Lines? then contextLines.n else 3)
  {
    var context := ContextOf(contextLines);
    var changed := CollectChanged(lines);
    if |changed| == 0 {
      var oldCount, newCount := CountSides(lines);
      return [Hunk(1, oldCount, 1, newCount, lines)];
    }
    assert IsChange(lines, changed[0]);
    var ranges := BuildRanges(lines, context, changed);
    ExactInBounds(ranges, lines, context);
    hunks := [];
    for r := 0 to |ranges|
      invariant hunks == HunksOf(lines, ranges)[..r]
    {
      var hunk := BuildHunk(lines[ranges[r].start..ranges[r].end + 1]);
      hunks := hunks + [hunk];
    }
  }

  // ---- what hunks of a numbered script look like -----------------------------------

  lemma {:induction false} NumberedSides(s: seq<Edit>, oldNo: nat, newNo: nat)
    ensures OldTexts(Number(s, oldNo, newNo)) == OldSide(s)
    ensures NewTexts(Number(s, oldNo, newNo)) == NewSide(s)
  {
    if |s| > 0 {
      var o := if s[0].kind == Add then oldNo else oldNo + 1;
      var n := if s[0].kind == Del then newNo else newNo + 1;
      NumberedSides(s[1..], o, n);
      assert Number(s, oldNo, newNo)[1..] == Number(s[1..], o, n);
    }
  }

  /** A slice of a numbered script is the numbered slice. */
  lemma NumberSlice(s: seq<Edit>, p: nat, q: nat)
    requires p <= q <= |s|
    ensures Number(s, 1, 1)[p..q] == Number(s[p..q], 1 + |OldSide(s[..p])|, 1 + |NewSide(s[..p])|)
  {
    hide Number, OldSide, NewSide;
    var o, n := 1 + |OldSide(s[..p])|, 1 + |NewSide(s[..p])|;
    forall k: nat | k < q - p
      ensures Number(s, 1, 1)[p..q][k] == Number(s[p..q], o, n)[k]
    {
      NumberAt(s, 1, 1, p + k);
      NumberAt(s[p..q], o, n, k);
      assert s[..p + k] == s[..p] + s[p..q][..k];
      SidesConcat(s[..p], s[p..q][..k]);
    }
  }

  lemma {:induction false} FirstOfNumbered(s: seq<Edit>, oldNo: nat, newNo: nat)
    requires oldNo > 0 && newNo > 0
    ensures FirstOld(Number(s, oldNo, newNo)) == if OldSide(s) == [] then 0 else oldNo
    ensures FirstNew(Number(s, oldNo, newNo)) == if NewSide(s) == [] then 0 else newNo
  {
    if |s| > 0 {
      var o := if s[0].kind == Add then oldNo else oldNo + 1;
      var n := if s[0].kind == Del then newNo else newNo + 1;
      FirstOfNumbered(s[1..], o, n);
      assert Number(s, oldNo, newNo)[1..] == Number(s[1..], o, n);
    }
  }

  /**
   Where a hunk says it starts. The old start is right exactly when the hunk has an old line to take
   it from, or the two sides happen to be level there; likewise for the new start. Otherwise it is the start
   of the other side.
  */
  lemma HunkHeader(s: seq<Edit>, p: nat, q: nat)
    requires p < q <= |s|
    ensures var h := HunkOf(Number(s, 1, 1)[p..q]);
            && OldTexts(h.lines) == OldSide(s[p..q]) && h.oldCount == |OldSide(s[p..q])|
            && NewTexts(h.lines) == NewSide(s[p..q]) && h.newCount == |NewSide(s[p..q])|
            && (h.oldStart == 1 + |OldSide(s[..p])|
                <==> h.oldCount > 0 || |OldSide(s[..p])| == |NewSide(s[..p])|)
            && (h.newStart == 1 + |NewSide(s[..p])|
                <==> h.newCount > 0 || |OldSide(s[..p])| == |NewSide(s[..p])|)
            && (h.oldCount == 0 ==> h.oldStart == 1 + |NewSide(s[..p])|)
            && (h.newCount == 0 ==> h.newStart == 1 + |OldSide(s[..p])|)
  {
    NumberSlice(s, p, q);
    NumberedHunk(s[p..q], 1 + |OldSide(s[..p])|, 1 + |NewSide(s[..p])|);
  }

  lemma NumberedHunk(s: seq<Edit>, oldNo: nat, newNo: nat)
    requires |s| > 0 && oldNo > 0 && newNo > 0
    ensures var h := HunkOf(Number(s, oldNo, newNo));
            && OldTexts(h.lines) == OldSide(s) && h.oldCount == |OldSide(s)|
            && NewTexts(h.lines) == NewSide(s) && h.newCount == |NewSide(s)|
            && (h.oldStart == oldNo <==> h.oldCount > 0 || oldNo == newNo)
            && (h.newStart == newNo <==> h.newCount > 0 || oldNo == newNo)
            && (h.oldCount == 0 ==> h.oldStart == newNo) && (h.newCount == 0 ==> h.newStart == oldNo)
  {
    NumberedSides(s, oldNo, newNo);
    FirstOfNumbered(s, oldNo, newNo);
    assert OldSide(s) != [] || NewSide(s) != [];
  }
}
