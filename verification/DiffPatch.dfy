/**
 The hunk view is a patch: an independent patch reader, given only the hunks, turns the old text
 into the new one, and with the sides exchanged turns the new text back into the old one.
*/
module DiffPatch {
  import opened Text
  import opened LineDiff
  import opened DiffHunks
  import Lcs

  // ---- the patch reader ----------------------------------------------------------

  datatype Patched = Rejected | Accepted(text: seq<string>)

  /**
   Reads hunks the way a patch tool does: copy old lines up to the hunk, insist that the lines it
   claims to replace are there, emit its new side, continue behind it. Of a hunk it uses only
   `oldStart`, `oldCount` and `lines`.
  */
  function Apply(base: seq<string>, hunks: seq<Hunk>, pos: nat): Patched
    requires pos <= |base|
    decreases |hunks|
  {
    if |hunks| == 0 then Accepted(base[pos..])
    else
      var h := hunks[0];
      var from := h.oldStart - 1;
      if from < pos || from + h.oldCount > |base| || base[from..from + h.oldCount] != OldTexts(h.lines)
      then Rejected
      else match Apply(base, hunks[1..], from + h.oldCount)
        case Rejected => Rejected
        case Accepted(rest) => Accepted(base[pos..from] + NewTexts(h.lines) + rest)
  }

  // ---- slices of a script and of its sides ---------------------------------------

  lemma SideSlices(s: seq<Edit>, p: nat, q: nat)
    requires p <= q <= |s|
    ensures |OldSide(s[..p])| + |OldSide(s[p..q])| == |OldSide(s[..q])| <= |OldSide(s)|
    ensures OldSide(s)[|OldSide(s[..p])|..|OldSide(s[..q])|] == OldSide(s[p..q])
    ensures NewSide(s[p..]) == NewSide(s[p..q]) + NewSide(s[q..])
  {
    hide OldSide, NewSide;
    assert s[..q] == s[..p] + s[p..q];
    SidesConcat(s[..p], s[p..q]);
    assert s == s[..q] + s[q..];
    SidesConcat(s[..q], s[q..]);
    assert s[p..] == s[p..q] + s[q..];
    SidesConcat(s[p..q], s[q..]);
  }

  lemma {:induction false} ContextSides(s: seq<Edit>)
    requires forall k :: 0 <= k < |s| ==> s[k].kind == Ctx
    ensures OldSide(s) == NewSide(s)
  {
    if |s| > 0 {
      ContextSides(s[1..]);
    }
  }

  /** Every change is covered, so what lies between two ranges is the same on both sides. */
  lemma GapIsContext(s: seq<Edit>, ranges: seq<Range>, r: nat, p: nat, q: nat)
    requires Apart(ranges) && p <= q <= |s| && r <= |ranges|
    requires CoversChanges(s, ranges)
    requires r > 0 ==> ranges[r - 1].end < p
    requires r < |ranges| ==> q <= ranges[r].start
    ensures OldSide(s[p..q]) == NewSide(s[p..q])
  {
    forall k | 0 <= k < q - p ensures s[p..q][k].kind == Ctx {
      forall i | 0 <= i < |ranges| ensures !InRange(ranges[i], p + k) {
        if i + 1 < r {
          assert ranges[i].end + 1 < ranges[r - 1].start;
        } else if r < i {
          assert ranges[r].end + 1 < ranges[i].start;
        }
      }
      assert !Covered(ranges, p + k);
    }
    ContextSides(s[p..q]);
  }

  /** The hunk names exactly the slice `s[p..q]` and where its old side begins. */
  ghost predicate PlacedAt(s: seq<Edit>, h: Hunk, p: nat, q: nat) {
    && p < q <= |s|
    && h.oldStart == 1 + |OldSide(s[..p])|
    && h.oldCount == |OldSide(s[p..q])|
    && OldTexts(h.lines) == OldSide(s[p..q])
    && NewTexts(h.lines) == NewSide(s[p..q])
  }

  ghost predicate Placed(s: seq<Edit>, ranges: seq<Range>, hunks: seq<Hunk>) {
    && |hunks| == |ranges|
    && forall r :: 0 <= r < |ranges| ==> PlacedAt(s, hunks[r], ranges[r].start, ranges[r].end + 1)
  }

  ghost predicate CoversChanges(s: seq<Edit>, ranges: seq<Range>) {
    forall k: nat :: k < |s| && s[k].kind != Ctx ==> Covered(ranges, k)
  }

  /** One turn of the patch reader on a hunk it accepts. */
  lemma {:induction false} ApplyStep(base: seq<string>, h: Hunk, rest: seq<Hunk>, pos: nat, tail: seq<string>)
    requires pos <= h.oldStart - 1 && h.oldStart - 1 + h.oldCount <= |base|
    requires base[h.oldStart - 1..h.oldStart - 1 + h.oldCount] == OldTexts(h.lines)
    requires Apply(base, rest, h.oldStart - 1 + h.oldCount) == Accepted(tail)
    ensures Apply(base, [h] + rest, pos)
         == Accepted(base[pos..h.oldStart - 1] + NewTexts(h.lines) + tail)
  {
    assert ([h] + rest)[1..] == rest;
  }

  /** One placed hunk: copy the gap, replace the slice, go on behind it. */
  lemma {:induction false} ApplyOne(s: seq<Edit>, h: Hunk, rest: seq<Hunk>, p: nat, st: nat, en: nat)
    requires p <= st && PlacedAt(s, h, st, en)
    requires OldSide(s[p..st]) == NewSide(s[p..st])
    requires |OldSide(s[..en])| <= |OldSide(s)|
    requires Apply(OldSide(s), rest, |OldSide(s[..en])|) == Accepted(NewSide(s[en..]))
    ensures |OldSide(s[..p])| <= |OldSide(s)|
    ensures Apply(OldSide(s), [h] + rest, |OldSide(s[..p])|) == Accepted(NewSide(s[p..]))
  {
    hide OldSide, NewSide, Apply;
    SideSlices(s, p, st);
    SideSlices(s, st, en);
    ApplyStep(OldSide(s), h, rest, |OldSide(s[..p])|, NewSide(s[en..]));
    Associative(NewSide(s[p..st]), NewSide(s[st..en]), NewSide(s[en..]));
  }

  lemma HeadTail<T>(s: seq<T>, r: nat)
    requires r < |s|
    ensures [s[r]] + s[r + 1..] == s[r..]
  {
  }

  /** Correctly placed hunks that cover every change, read from the `r`-th on. */
  lemma {:induction false} PatchFrom(s: seq<Edit>, ranges: seq<Range>, hunks: seq<Hunk>, r: nat, p: nat)
    requires Apart(ranges) && Placed(s, ranges, hunks) && CoversChanges(s, ranges)
    requires r <= |ranges| && p <= |s|
    requires r > 0 ==> ranges[r - 1].end < p
    requires r < |ranges| ==> p <= ranges[r].start
    ensures |OldSide(s[..p])| <= |OldSide(s)|
    ensures Apply(OldSide(s), hunks[r..], |OldSide(s[..p])|) == Accepted(NewSide(s[p..]))
    decreases |ranges| - r
  {
    hide OldSide, NewSide;
    if r == |ranges| {
      GapIsContext(s, ranges, r, p, |s|);
      SideSlices(s, p, |s|);
      assert s[..|s|] == s && s[p..|s|] == s[p..];
    } else {
      assert PlacedAt(s, hunks[r], ranges[r].start, ranges[r].end + 1);
      var st, en := ranges[r].start, ranges[r].end + 1;
      GapIsContext(s, ranges, r, p, st);
      if r + 1 < |ranges| {
        assert ranges[r].end + 1 < ranges[r + 1].start;
      }
      PatchFrom(s, ranges, hunks, r + 1, en);
      ApplyOne(s, hunks[r], hunks[r + 1..], p, st, en);
      HeadTail(hunks, r);
    }
  }

  // ---- with context, no hunk is one-sided -------------------------------------------

  /** A range stops short of the ends of the script only at unchanged lines. */
  lemma RangeEdges(ranges: seq<Range>, lines: seq<Line>, context: nat, r: nat)
    requires Exact(ranges, lines, context) && context >= 1 && r < |ranges|
    ensures ranges[r].end < |lines|
    ensures ranges[r].start > 0 ==> lines[ranges[r].start].kind == Ctx
    ensures ranges[r].end < |lines| - 1 ==> lines[ranges[r].end].kind == Ctx
  {
    ExactInBounds(ranges, lines, context);
    var st, en := ranges[r].start, ranges[r].end;
    if st > 0 && IsChange(lines, st) {
      NeighbourShown(lines, context, st, st - 1);
      OutsideOwnRange(ranges, r);
    }
    if en < |lines| - 1 && IsChange(lines, en) {
      NeighbourShown(lines, context, en, en + 1);
      OutsideOwnRange(ranges, r);
    }
  }

  lemma NeighbourShown(lines: seq<Line>, context: nat, c: nat, k: nat)
    requires IsChange(lines, c) && k < |lines| && -1 <= c - k <= 1 && context >= 1
    ensures Shown(lines, context, k)
  {
    assert Near(context, c, k);
  }

  lemma OutsideOwnRange(ranges: seq<Range>, r: nat)
    requires Apart(ranges) && r < |ranges|
    ensures ranges[r].start > 0 ==> !Covered(ranges, ranges[r].start - 1)
    ensures !Covered(ranges, ranges[r].end + 1)
  {
    forall i | 0 <= i < |ranges|
      ensures ranges[r].start > 0 ==> !InRange(ranges[i], ranges[r].start - 1)
      ensures !InRange(ranges[i], ranges[r].end + 1)
    {
      if i < r {
        assert ranges[i].end + 1 < ranges[r].start;
      } else if r < i {
        assert ranges[r].end + 1 < ranges[i].start;
      }
    }
  }

  lemma ContextLineOnBothSides(s: seq<Edit>, k: nat)
    requires k < |s| && s[k].kind == Ctx
    ensures OldSide(s) != [] && NewSide(s) != []
  {
    assert s == s[..k] + ([s[k]] + s[k + 1..]);
    SidesConcat(s[..k], [s[k]] + s[k + 1..]);
  }

  lemma TwoSided(s: seq<Edit>, ranges: seq<Range>, context: nat, r: nat)
    requires OldSide(s) != [] && NewSide(s) != []
    requires Exact(ranges, Number(s, 1, 1), context) && context >= 1 && r < |ranges|
    ensures ranges[r].start <= ranges[r].end < |s|
    ensures var part := s[ranges[r].start..ranges[r].end + 1];
            OldSide(part) != [] && NewSide(part) != []
  {
    var lines := Number(s, 1, 1);
    var st, en := ranges[r].start, ranges[r].end;
    RangeEdges(ranges, lines, context, r);
    NumberAt(s, 1, 1, st);
    NumberAt(s, 1, 1, en);
    var part := s[st..en + 1];
    if st > 0 {
      ContextLineOnBothSides(part, 0);
    } else if en < |s| - 1 {
      ContextLineOnBothSides(part, en - st);
    } else {
      assert part == s;
    }
  }

  lemma {:induction false} KindsNumbered(s: seq<Edit>, k: nat)
    requires k < |s|
    ensures Number(s, 1, 1)[k].kind == s[k].kind
  {
    NumberAt(s, 1, 1, k);
  }

  lemma {:induction false} RangesCoverChanges(s: seq<Edit>, ranges: seq<Range>, context: nat)
    requires Exact(ranges, Number(s, 1, 1), context)
    ensures CoversChanges(s, ranges)
  {
    var lines := Number(s, 1, 1);
    forall k: nat | k < |s| && s[k].kind != Ctx ensures Covered(ranges, k) {
      KindsNumbered(s, k);
      assert IsChange(lines, k) && Near(context, k, k);
      assert Shown(lines, context, k);
    }
  }

  ghost predicate TwoSidedCounts(hunks: seq<Hunk>) {
    forall r :: 0 <= r < |hunks| ==> hunks[r].oldCount > 0 && hunks[r].newCount > 0
  }

  lemma {:induction false} HunksAreTwoSided(s: seq<Edit>, ranges: seq<Range>, context: nat)
    requires OldSide(s) != [] && NewSide(s) != [] && context >= 1
    requires Exact(ranges, Number(s, 1, 1), context)
    requires forall r :: 0 <= r < |ranges| ==> ranges[r].start <= ranges[r].end < |s|
    ensures forall r :: 0 <= r < |ranges| ==> OldSide(s[ranges[r].start..ranges[r].end + 1]) != []
    ensures TwoSidedCounts(HunksOf(Number(s, 1, 1), ranges))
  {
    hide Number, OldSide, NewSide, Shown, Exact;
    forall r | 0 <= r < |ranges|
      ensures OldSide(s[ranges[r].start..ranges[r].end + 1]) != []
      ensures var hunk := HunksOf(Number(s, 1, 1), ranges)[r];
              hunk.oldCount > 0 && hunk.newCount > 0
    {
      TwoSided(s, ranges, context, r);
      HunkHeader(s, ranges[r].start, ranges[r].end + 1);
    }
  }

  /**
   With any context, even none: the hunks patch the old text whenever each has an old line, or starts
   where both sides are level. By `HunkHeader` that is exactly when every old start is right.
  */
  lemma {:induction false} LevelHunksPatch(s: seq<Edit>, ranges: seq<Range>, context: nat)
    requires Exact(ranges, Number(s, 1, 1), context)
    requires forall r :: 0 <= r < |ranges| ==> ranges[r].start <= ranges[r].end < |s|
    requires forall r :: 0 <= r < |ranges| ==>
               || OldSide(s[ranges[r].start..ranges[r].end + 1]) != []
               || |OldSide(s[..ranges[r].start])| == |NewSide(s[..ranges[r].start])|
    ensures Apply(OldSide(s), HunksOf(Number(s, 1, 1), ranges), 0) == Accepted(NewSide(s))
  {
    var hunks := HunksOf(Number(s, 1, 1), ranges);
    forall r | 0 <= r < |ranges|
      ensures PlacedAt(s, hunks[r], ranges[r].start, ranges[r].end + 1)
    {
      HunkHeader(s, ranges[r].start, ranges[r].end + 1);
    }
    RangesCoverChanges(s, ranges, context);
    PatchFrom(s, ranges, hunks, 0, 0);
    assert hunks[0..] == hunks && s[0..] == s && s[..0] == [];
  }

  lemma {:induction false} UnchangedPatch(s: seq<Edit>)
    requires forall c: nat :: !IsChange(Number(s, 1, 1), c)
    ensures var lines := Number(s, 1, 1);
            Apply(OldSide(s), [Hunk(1, |OldTexts(lines)|, 1, |NewTexts(lines)|, lines)], 0)
            == Accepted(NewSide(s))
  {
    var lines := Number(s, 1, 1);
    NumberedSides(s, 1, 1);
    forall k | 0 <= k < |s| ensures s[k].kind == Ctx {
      KindsNumbered(s, k);
      assert !IsChange(lines, k);
    }
    ContextSides(s);
    assert Apply(OldSide(s), [], |OldSide(s)|) == Accepted([]);
  }

  /** The forward half of the theorem below, for any script with something on both sides. */
  lemma {:induction false} HunksPatchForward(s: seq<Edit>, context: nat, hunks: seq<Hunk>)
    requires OldSide(s) != [] && NewSide(s) != [] && context >= 1
    requires IsHunkView(hunks, Number(s, 1, 1), context)
    ensures Apply(OldSide(s), hunks, 0) == Accepted(NewSide(s))
    ensures TwoSidedCounts(hunks)
  {
    var lines := Number(s, 1, 1);
    if forall c: nat :: !IsChange(lines, c) {
      UnchangedPatch(s);
      NumberedSides(s, 1, 1);
    } else {
      var ranges: seq<Range> :|
        && Exact(ranges, lines, context)
        && (forall r :: 0 <= r < |ranges| ==> ranges[r].start <= ranges[r].end < |lines|)
        && hunks == HunksOf(lines, ranges);
      HunksAreTwoSided(s, ranges, context);
      LevelHunksPatch(s, ranges, context);
    }
  }

  // ---- exchanging the sides -----------------------------------------------------------

  function FlipKind(k: Kind): Kind {
    match k case Ctx => Ctx case Del => Add case Add => Del
  }

  function FlipEdit(e: Edit): Edit { Edit(FlipKind(e.kind), e.text) }

  function Flip(s: seq<Edit>): (t: seq<Edit>)
    ensures |t| == |s| && forall k :: 0 <= k < |s| ==> t[k] == FlipEdit(s[k])
  {
    if |s| == 0 then [] else [FlipEdit(s[0])] + Flip(s[1..])
  }

  function FlipLine(l: Line): Line { Line(FlipKind(l.kind), l.text, l.newNo, l.oldNo) }

  function FlipLines(lines: seq<Line>): (t: seq<Line>)
    ensures |t| == |lines| && forall k :: 0 <= k < |t| ==> t[k] == FlipLine(lines[k])
  {
    if |lines| == 0 then [] else [FlipLine(lines[0])] + FlipLines(lines[1..])
  }

  function FlipHunk(h: Hunk): Hunk {
    Hunk(h.newStart, h.newCount, h.oldStart, h.oldCount, FlipLines(h.lines))
  }

  function FlipHunks(hunks: seq<Hunk>): seq<Hunk> {
    seq(|hunks|, r requires 0 <= r < |hunks| => FlipHunk(hunks[r]))
  }

  lemma {:induction false} FlipScript(s: seq<Edit>, oldNo: nat, newNo: nat)
    ensures OldSide(Flip(s)) == NewSide(s) && NewSide(Flip(s)) == OldSide(s)
    ensures Number(Flip(s), newNo, oldNo) == FlipLines(Number(s, oldNo, newNo))
  {
    if |s| > 0 {
      var o := if s[0].kind == Add then oldNo else oldNo + 1;
      var n := if s[0].kind == Del then newNo else newNo + 1;
      FlipScript(s[1..], o, n);
      assert Flip(s)[1..] == Flip(s[1..]);
      assert Number(s, oldNo, newNo)[1..] == Number(s[1..], o, n);
      assert FlipLines(Number(s, oldNo, newNo))
          == [FlipLine(Number(s, oldNo, newNo)[0])] + FlipLines(Number(s[1..], o, n));
    }
  }

  lemma {:induction false} FlipHunkOf(part: seq<Line>)
    ensures HunkOf(FlipLines(part)) == FlipHunk(HunkOf(part))
    ensures OldTexts(FlipLines(part)) == NewTexts(part) && NewTexts(FlipLines(part)) == OldTexts(part)
    ensures FirstOld(FlipLines(part)) == FirstNew(part) && FirstNew(FlipLines(part)) == FirstOld(part)
  {
    if |part| > 0 {
      FlipHunkOf(part[1..]);
      assert FlipLines(part)[1..] == FlipLines(part[1..]);
    }
  }

  lemma {:induction false} FlipRanges(ranges: seq<Range>, lines: seq<Line>, context: nat)
    requires Exact(ranges, lines, context)
    ensures Exact(ranges, FlipLines(lines), context)
  {
    var flipped := FlipLines(lines);
    forall c: nat ensures IsChange(flipped, c) <==> IsChange(lines, c) {}
    forall k: nat ensures Shown(flipped, context, k) <==> Shown(lines, context, k) {
      SameChangesShow(lines, flipped, context, k);
      SameChangesShow(flipped, lines, context, k);
    }
  }

  lemma SameChangesShow(lines: seq<Line>, other: seq<Line>, context: nat, k: nat)
    requires |lines| == |other| && forall c: nat :: IsChange(lines, c) <==> IsChange(other, c)
    ensures Shown(lines, context, k) ==> Shown(other, context, k)
  {
    if Shown(lines, context, k) {
      var c: nat :| c < |lines| && IsChange(lines, c) && Near(context, c, k);
      assert IsChange(other, c);
    }
  }

  lemma {:induction false} FlipSlice(lines: seq<Line>, p: nat, q: nat)
    requires p <= q <= |lines|
    ensures FlipLines(lines[p..q]) == FlipLines(lines)[p..q]
  {
  }

  lemma {:induction false} FlipHunksOf(ranges: seq<Range>, lines: seq<Line>)
    requires forall r :: 0 <= r < |ranges| ==> ranges[r].start <= ranges[r].end < |lines|
    ensures FlipHunks(HunksOf(lines, ranges)) == HunksOf(FlipLines(lines), ranges)
  {
    hide HunkOf, FlipHunk;
    forall r | 0 <= r < |ranges|
      ensures FlipHunks(HunksOf(lines, ranges))[r] == HunksOf(FlipLines(lines), ranges)[r]
    {
      FlipHunkOf(lines[ranges[r].start..ranges[r].end + 1]);
      FlipSlice(lines, ranges[r].start, ranges[r].end + 1);
    }
  }

  lemma {:induction false} FlipView(hunks: seq<Hunk>, lines: seq<Line>, context: nat)
    requires IsHunkView(hunks, lines, context)
    ensures IsHunkView(FlipHunks(hunks), FlipLines(lines), context)
  {
    var flipped := FlipLines(lines);
    forall c: nat ensures IsChange(flipped, c) <==> IsChange(lines, c) {}
    if forall c: nat :: !IsChange(lines, c) {
      FlipHunkOf(lines);
    } else {
      var ranges: seq<Range> :|
        && Exact(ranges, lines, context)
        && (forall r :: 0 <= r < |ranges| ==> ranges[r].start <= ranges[r].end < |lines|)
        && hunks == HunksOf(lines, ranges);
      FlipRanges(ranges, lines, context);
      FlipHunksOf(ranges, lines);
    }
  }

  // ---- the theorem ------------------------------------------------------------------------

  /**
   For every two texts and every context of at least one line: the hunks of the computed diff are
   accepted on the old text and give the new one, with the sides exchanged they take the new text
   back, and every hunk has lines on both sides.
  */
  lemma DiffIsPatch(oldText: string, newText: string, context: nat, hunks: seq<Hunk>)
    requires context >= 1
    requires IsHunkView(hunks, Number(Script(Split(oldText, NL), Split(newText, NL)), 1, 1), context)
    ensures Apply(Split(oldText, NL), hunks, 0) == Accepted(Split(newText, NL))
    ensures Apply(Split(newText, NL), FlipHunks(hunks), 0) == Accepted(Split(oldText, NL))
    ensures TwoSidedCounts(hunks)
  {
    var a, b := Split(oldText, NL), Split(newText, NL);
    var s := Script(a, b);
    ScriptIsDiff(a, b);
    HunksPatchForward(s, context, hunks);
    FlipScript(s, 1, 1);
    FlipView(hunks, Number(s, 1, 1), context);
    HunksPatchForward(Flip(s), context, FlipHunks(hunks));
  }

  /** The same from end to end: the methods' own output patches the old text into the new one. */
  method ShowDiff(oldText: string, newText: string) returns (hunks: seq<Hunk>)
    ensures Apply(Split(oldText, NL), hunks, 0) == Accepted(Split(newText, NL))
  {
    var lines := Compute(oldText, newText);
    hunks := BuildDiffHunks(lines, ContextArg.Lines(3));
    DiffIsPatch(oldText, newText, 3, hunks);
  }

  lemma SingleAddition(text: string, no: nat)
    requires no > 0
    ensures var line := Line(Add, text, Absent, At(no));
            HunkOf([line]) == Hunk(no, 0, no, 1, [line]) && OldTexts([line]) == []
  {
    var line := Line(Add, text, Absent, At(no));
    assert [line][1..] == [];
    assert OldTexts([line]) == [] + OldTexts([]);
    assert NewTexts([line]) == [text] + NewTexts([]);
    assert FirstOld([line]) == FirstOld([]);
  }

  /** Whether hunks take the one text to the other. */
  predicate PatchesTexts(oldText: string, newText: string, hunks: seq<Hunk>) {
    Apply(Split(oldText, NL), hunks, 0) == Accepted(Split(newText, NL))
  }

  /** The hunks of the computed diff of two texts, with that many lines of context. */
  ghost predicate IsDiffView(oldText: string, newText: string, context: nat, hunks: seq<Hunk>) {
    IsHunkView(hunks, Number(Script(Split(oldText, NL), Split(newText, NL)), 1, 1), context)
  }

  /** How much context is needed: the hunks of every two texts are a patch exactly with one line or more. */
  lemma PatchIffContext(context: nat)
    ensures (forall oldText, newText, hunks :: IsDiffView(oldText, newText, context, hunks)
              ==> PatchesTexts(oldText, newText, hunks))
            <==> context >= 1
  {
    hide Apply, Split, Script, Number, IsHunkView;
    if context >= 1 {
      forall oldText, newText, hunks | IsDiffView(oldText, newText, context, hunks)
        ensures PatchesTexts(oldText, newText, hunks)
      {
        DiffIsPatch(oldText, newText, context, hunks);
      }
    } else {
      var oldText, newText, hunks := NoContextNoPatch();
      assert IsDiffView(oldText, newText, context, hunks);
    }
  }

  /**
   Without context the theorem fails: a hunk that only adds lines has no old line to start from and
   borrows the new number, which is off once earlier hunks changed the length.
  */
  lemma NoContextNoPatch() returns (oldText: string, newText: string, hunks: seq<Hunk>)
    ensures oldText == "a" && newText == "x" + [NL] + "a" + [NL] + "y"
    ensures IsDiffView(oldText, newText, 0, hunks) && Apply(Split(oldText, NL), hunks, 0) == Rejected
  {
    var a, x, y := "a", "x", "y";
    oldText, newText := a, x + [NL] + a + [NL] + y;
    var l0, l1, l2 := Line(Add, x, Absent, At(1)), Line(Ctx, a, At(1), At(2)), Line(Add, y, Absent, At(3));
    hunks := [HunkOf([l0]), HunkOf([l2])];
    assert a[0] != x[0] && a[0] != y[0];
    ThreeLines(x, a, y);
    hide Split, Script, Number, Apply, IsHunkView, HunkOf;
    AddsAround(x, a, y);
    AddKeepAdd(x, a, y);
    TwoAdditions(l0, l1, l2);
    SingleAddition(x, 1);
    SingleAddition(y, 3);
    SecondRejected([a], HunkOf([l0]), HunkOf([l2]));
  }

  lemma ThreeLines(x: string, a: string, y: string)
    requires NL !in x && NL !in a && NL !in y
    ensures Split(a, NL) == [a] && Split(x + [NL] + a + [NL] + y, NL) == [x, a, y]
  {
    SplitWithoutSeparator(x, NL);
    SplitWithoutSeparator(a, NL);
    SplitWithoutSeparator(y, NL);
    SplitConcat(x, a, NL);
    SplitConcat(x + [NL] + a, y, NL);
  }

  /** The computed script for a line with one more line on either side. */
  lemma {:induction false} AddsAround(x: string, a: string, y: string)
    requires x != a && a != y
    ensures Script([a], [x, a, y]) == [Edit(Add, x), Edit(Ctx, a), Edit(Add, y)]
  {
    var p, q := [a], [x, a, y];
    assert SharedPrefix(p, q, 0) == 0;
    assert FromEnd(p, 0) == a && FromEnd(q, 0) == y;
    assert SharedSuffix(p, q, 0, 0) == 0;
    var t := Trim(p, q);
    assert t.head == [] && t.x == p && t.y == q && t.tail == [];
    assert [a][1..] == [] && [x, a, y][1..] == [a, y] && [a, y][1..] == [y];
    assert Lcs.Length([], q) == 0 && Lcs.Length(p, [a, y]) == 1;
    assert Walk([], [y]) == [Edit(Add, y)] by { assert Block(Add, [y]) == [Edit(Add, y)] && Block(Del, []) == []; }
    assert Walk(p, [a, y]) == [Edit(Ctx, a)] + Walk([], [y]);
    assert Walk(p, q) == [Edit(Add, x)] + Walk(p, [a, y]);
    assert Block(Ctx, []) == [];
  }

  lemma {:induction false} AddKeepAdd(x: string, a: string, y: string)
    ensures var s := [Edit(Add, x), Edit(Ctx, a), Edit(Add, y)];
            && Transforms(s, [a], [x, a, y])
            && Number(s, 1, 1)
               == [Line(Add, x, Absent, At(1)), Line(Ctx, a, At(1), At(2)), Line(Add, y, Absent, At(3))]
  {
    var s2 := [Edit(Add, y)];
    var s1 := [Edit(Ctx, a)] + s2;
    var s := [Edit(Add, x)] + s1;
    assert s == [Edit(Add, x), Edit(Ctx, a), Edit(Add, y)];
    assert s2[1..] == [] && s1[1..] == s2 && s[1..] == s1;
    assert OldSide(s2) == [] && NewSide(s2) == [y];
    assert OldSide(s1) == [a] && NewSide(s1) == [a, y];
    assert Number(s2, 2, 3) == [Line(Add, y, Absent, At(3))];
    assert Number(s1, 1, 2) == [Line(Ctx, a, At(1), At(2))] + Number(s2, 2, 3);
  }

  lemma {:induction false} TwoAdditions(l0: Line, l1: Line, l2: Line)
    requires l0.kind == Add && l1.kind == Ctx && l2.kind == Add
    ensures IsHunkView([HunkOf([l0]), HunkOf([l2])], [l0, l1, l2], 0)
  {
    var lines := [l0, l1, l2];
    var ranges := [Range(0, 0), Range(2, 2)];
    OutermostRanges(lines);
    assert lines[0..1] == [l0] && lines[2..3] == [l2];
    assert [HunkOf([l0]), HunkOf([l2])] == HunksOf(lines, ranges);
    assert IsChange(lines, 0);
  }

  lemma OutermostRanges(lines: seq<Line>)
    requires |lines| == 3 && lines[0].kind == Add && lines[1].kind == Ctx && lines[2].kind == Add
    ensures Exact([Range(0, 0), Range(2, 2)], lines, 0)
  {
    var ranges := [Range(0, 0), Range(2, 2)];
    forall k: nat ensures Covered(ranges, k) <==> Shown(lines, 0, k) {
      assert InRange(ranges[0], 0) && InRange(ranges[1], 2);
      assert IsChange(lines, 0) && IsChange(lines, 2) && !IsChange(lines, 1);
      assert Near(0, 0, 0) && Near(0, 2, 2);
    }
  }

  lemma SecondRejected(base: seq<string>, h: Hunk, g: Hunk)
    requires h.oldStart == 1 && h.oldCount == 0 && OldTexts(h.lines) == []
    requires g.oldStart > |base| + 1
    ensures Apply(base, [h, g], 0) == Rejected
  {
    assert [h, g][1..] == [g];
    assert Apply(base, [g], 0) == Rejected;
    assert base[0..0] == [];
  }
}
