/**
 The unified text form: lines are printed with a one-character prefix (frontend/js/diff.js:127-128)
 and read back by the two extractors (frontend/js/messages.js:1107-1135).
*/
module UnifiedText {
  import opened Text
  import opened LineDiff

  function Prefix(kind: Kind): char {
    match kind case Add => '+' case Del => '-' case Ctx => ' '
  }

  function PrintLine(e: Edit): string { [Prefix(e.kind)] + e.text }

  function PrintLines(s: seq<Edit>): (p: seq<string>)
    ensures |p| == |s|
  {
    seq(|s|, k requires 0 <= k < |s| => PrintLine(s[k]))
  }

  function Print(s: seq<Edit>): string { Join(PrintLines(s), NL) }

  /** `line.startsWith('+++') || line.startsWith('---') || line.startsWith('@@')`. */
  predicate IsHeader(line: string) {
    "+++" <= line || "---" <= line || "@@" <= line
  }

  /** What one printed line contributes to the side whose own prefix is `own`. */
  function SideOf(own: char, other: char, line: string): seq<string> {
    if IsHeader(line) then []
    else if [other] <= line then []
    else if [own] <= line then [line[1..]]
    else if " " <= line then [line[1..]]
    else []
  }

  function Sides(own: char, other: char, lines: seq<string>): seq<string> {
    if |lines| == 0 then [] else SideOf(own, other, lines[0]) + Sides(own, other, lines[1..])
  }

  lemma {:induction false} SidesSnoc(own: char, other: char, lines: seq<string>, line: string)
    ensures Sides(own, other, lines + [line]) == Sides(own, other, lines) + SideOf(own, other, line)
  {
    if |lines| == 0 {
      assert [line][1..] == [];
      assert Sides(own, other, [line]) == SideOf(own, other, line) + [];
    } else {
      assert (lines + [line])[1..] == lines[1..] + [line];
      SidesSnoc(own, other, lines[1..], line);
    }
  }

  /** `OSA.extractOldContentFromUnifiedDiff`. */
  method ExtractOldContent(diffText: string) returns (content: string)
    ensures content == Join(Sides('-', '+', Split(diffText, NL)), NL)
  {
    var lines := Split(diffText, NL);
    var oldLines: seq<string> := [];
    for i := 0 to |lines|
      invariant oldLines == Sides('-', '+', lines[..i])
    {
      var line := lines[i];
      SidesSnoc('-', '+', lines[..i], line);
      assert lines[..i + 1] == lines[..i] + [line];
      if "+++" <= line || "---" <= line || "@@" <= line {
      } else if "+" <= line {
      } else if "-" <= line {
        oldLines := oldLines + [line[1..]];
      } else if " " <= line {
        oldLines := oldLines + [line[1..]];
      }
    }
    assert lines[..|lines|] == lines;
    content := Join(oldLines, NL);
  }

  /** `OSA.extractNewContentFromUnifiedDiff`. */
  method ExtractNewContent(diffText: string) returns (content: string)
    ensures content == Join(Sides('+', '-', Split(diffText, NL)), NL)
  {
    var lines := Split(diffText, NL);
    var newLines: seq<string> := [];
    for i := 0 to |lines|
      invariant newLines == Sides('+', '-', lines[..i])
    {
      var line := lines[i];
      SidesSnoc('+', '-', lines[..i], line);
      assert lines[..i + 1] == lines[..i] + [line];
      if "+++" <= line || "---" <= line || "@@" <= line {
      } else if "-" <= line {
      } else if "+" <= line {
        newLines := newLines + [line[1..]];
      } else if " " <= line {
        newLines := newLines + [line[1..]];
      }
    }
    assert lines[..|lines|] == lines;
    content := Join(newLines, NL);
  }

  // ---- reading back what was printed -------------------------------------------

  /** A deleted line that prints like a `---` header. */
  predicate LooksLikeOldHeader(e: Edit) { e.kind == Del && "--" <= e.text }

  /** An added line that prints like a `+++` header. */
  predicate LooksLikeNewHeader(e: Edit) { e.kind == Add && "++" <= e.text }

  lemma PrintedLineSides(e: Edit)
    ensures SideOf('-', '+', PrintLine(e))
         == if e.kind == Add || LooksLikeOldHeader(e) then [] else [e.text]
    ensures SideOf('+', '-', PrintLine(e))
         == if e.kind == Del || LooksLikeNewHeader(e) then [] else [e.text]
  {
    var line := PrintLine(e);
    assert line[0] == Prefix(e.kind) && line[1..] == e.text;
    if e.kind == Ctx {
      assert " " <= line;
    } else if e.kind == Del {
      assert "-" <= line;
      assert "---" <= line <==> "--" <= e.text by { HeaderPrefix('-', e.text); }
    } else {
      assert "+" <= line;
      assert "+++" <= line <==> "++" <= e.text by { HeaderPrefix('+', e.text); }
    }
  }

  lemma HeaderPrefix(c: char, text: string)
    ensures [c, c, c] <= [c] + text <==> [c, c] <= text
  {
    var line := [c] + text;
    if [c, c, c] <= line {
      assert line[1] == c && line[2] == c && line[1] == text[0] && line[2] == text[1];
    }
  }

  /** What the old-content reader loses: exactly the deleted lines that look like headers. */
  lemma {:induction false} OldLinesRead(s: seq<Edit>)
    ensures |Sides('-', '+', PrintLines(s))| <= |OldSide(s)|
    ensures if forall k :: 0 <= k < |s| ==> !LooksLikeOldHeader(s[k])
            then Sides('-', '+', PrintLines(s)) == OldSide(s)
            else |Sides('-', '+', PrintLines(s))| < |OldSide(s)|
  {
    if |s| > 0 {
      PrintedLineSides(s[0]);
      assert PrintLines(s)[1..] == PrintLines(s[1..]);
      OldLinesRead(s[1..]);
      assert forall k :: 1 <= k < |s| ==> s[k] == s[1..][k - 1];
    }
  }

  lemma {:induction false} NewLinesRead(s: seq<Edit>)
    ensures |Sides('+', '-', PrintLines(s))| <= |NewSide(s)|
    ensures if forall k :: 0 <= k < |s| ==> !LooksLikeNewHeader(s[k])
            then Sides('+', '-', PrintLines(s)) == NewSide(s)
            else |Sides('+', '-', PrintLines(s))| < |NewSide(s)|
  {
    if |s| > 0 {
      PrintedLineSides(s[0]);
      assert PrintLines(s)[1..] == PrintLines(s[1..]);
      NewLinesRead(s[1..]);
      assert forall k :: 1 <= k < |s| ==> s[k] == s[1..][k - 1];
    }
  }

  ghost predicate OneLineTexts(s: seq<Edit>) {
    forall k :: 0 <= k < |s| ==> NL !in s[k].text
  }

  lemma SplitPrinted(s: seq<Edit>)
    requires |s| > 0 && OneLineTexts(s)
    ensures Split(Print(s), NL) == PrintLines(s)
  {
    SplitJoin(PrintLines(s), NL);
  }

  /** Lines of a script are lines of one of the two texts. */
  lemma {:induction false} TextsFromSides(s: seq<Edit>)
    requires NoneContains(OldSide(s), NL) && NoneContains(NewSide(s), NL)
    ensures OneLineTexts(s)
  {
    if |s| > 0 {
      var rest := s[1..];
      var o, n := OldSide(s), NewSide(s);
      assert OldSide(rest) == if s[0].kind == Add then o else o[1..];
      assert NewSide(rest) == if s[0].kind == Del then n else n[1..];
      TextsFromSides(rest);
      assert NL !in s[0].text by {
        if s[0].kind == Add { assert n[0] == s[0].text; } else { assert o[0] == s[0].text; }
      }
      forall k | 0 <= k < |s| ensures NL !in s[k].text {
        if k > 0 { assert s[k] == rest[k - 1]; }
      }
    }
  }

  /** A list with fewer lines never joins to the text of a longer one, the lone empty line aside. */
  lemma JoinShorter(p: seq<string>, q: seq<string>)
    requires |p| < |q| && NoneContains(p, NL) && NoneContains(q, NL)
    requires Join(p, NL) == Join(q, NL)
    ensures p == [] && q == [""]
  {
    if |p| > 0 {
      JoinInjective(p, q, NL);
    } else {
      SplitJoin(q, NL);
    }
  }

  lemma {:induction false} SidesFreeOfNewline(own: char, other: char, lines: seq<string>)
    requires NoneContains(lines, NL)
    ensures NoneContains(Sides(own, other, lines), NL)
  {
    if |lines| > 0 {
      SidesFreeOfNewline(own, other, lines[1..]);
      assert NL !in lines[0];
    }
  }

  /**
   Printing the diff of two texts and reading the old content back gives the old text exactly when no
   deleted line starts with `--`.
  */
  lemma OldRoundTrip(oldText: string, newText: string)
    ensures var s := Script(Split(oldText, NL), Split(newText, NL));
            Join(Sides('-', '+', Split(Print(s), NL)), NL) == oldText
            <==> forall k :: 0 <= k < |s| ==> !LooksLikeOldHeader(s[k])
  {
    var s := PrintedScript(oldText, newText);
    OldLinesRead(s);
    JoinSplit(oldText, NL);
    SidesFreeOfNewline('-', '+', PrintLines(s));
    var read := Sides('-', '+', PrintLines(s));
    if exists k :: 0 <= k < |s| && LooksLikeOldHeader(s[k]) {
      var k :| 0 <= k < |s| && LooksLikeOldHeader(s[k]);
      if Join(read, NL) == oldText {
        JoinShorter(read, OldSide(s));
        OldSideHolds(s, k);
      }
    }
  }

  /** The same for the new content and added lines starting with `++`. */
  lemma NewRoundTrip(oldText: string, newText: string)
    ensures var s := Script(Split(oldText, NL), Split(newText, NL));
            Join(Sides('+', '-', Split(Print(s), NL)), NL) == newText
            <==> forall k :: 0 <= k < |s| ==> !LooksLikeNewHeader(s[k])
  {
    var s := PrintedScript(oldText, newText);
    NewLinesRead(s);
    JoinSplit(newText, NL);
    SidesFreeOfNewline('+', '-', PrintLines(s));
    var read := Sides('+', '-', PrintLines(s));
    if exists k :: 0 <= k < |s| && LooksLikeNewHeader(s[k]) {
      var k :| 0 <= k < |s| && LooksLikeNewHeader(s[k]);
      if Join(read, NL) == newText {
        JoinShorter(read, NewSide(s));
        NewSideHolds(s, k);
      }
    }
  }

  /** The computed script, with what both round trips need to know about it. */
  lemma PrintedScript(oldText: string, newText: string) returns (s: seq<Edit>)
    ensures s == Script(Split(oldText, NL), Split(newText, NL)) && |s| > 0
    ensures Transforms(s, Split(oldText, NL), Split(newText, NL))
    ensures Split(Print(s), NL) == PrintLines(s) && NoneContains(PrintLines(s), NL)
    ensures NoneContains(OldSide(s), NL) && NoneContains(NewSide(s), NL)
  {
    var a, b := Split(oldText, NL), Split(newText, NL);
    s := Script(a, b);
    ScriptIsDiff(a, b);
    SplitPartsFreeOfSeparator(oldText, NL);
    SplitPartsFreeOfSeparator(newText, NL);
    TextsFromSides(s);
    SplitPrinted(s);
  }

  lemma {:induction false} OldSideHolds(s: seq<Edit>, k: nat)
    requires k < |s| && s[k].kind != Add
    ensures s[k].text in OldSide(s)
  {
    if k > 0 {
      OldSideHolds(s[1..], k - 1);
    }
  }

  lemma {:induction false} NewSideHolds(s: seq<Edit>, k: nat)
    requires k < |s| && s[k].kind != Del
    ensures s[k].text in NewSide(s)
  {
    if k > 0 {
      NewSideHolds(s[1..], k - 1);
    }
  }

  // ---- texts that do not read back ------------------------------------------------

  lemma {:induction false} OnOldSide(s: seq<Edit>, line: string) returns (k: nat)
    requires line in OldSide(s)
    ensures k < |s| && s[k].kind != Add && s[k].text == line
  {
    if s[0].kind != Add && s[0].text == line {
      k := 0;
    } else {
      k := OnOldSide(s[1..], line);
      k := k + 1;
    }
  }

  lemma {:induction false} OnNewSide(s: seq<Edit>, line: string) returns (k: nat)
    requires line in NewSide(s)
    ensures k < |s| && s[k].kind != Del && s[k].text == line
  {
    if s[0].kind != Del && s[0].text == line {
      k := 0;
    } else {
      k := OnNewSide(s[1..], line);
      k := k + 1;
    }
  }

  /** A line starting with `--` that the new text no longer has is lost to the reader. */
  lemma RemovedDashesAreLost(oldText: string, newText: string, line: string)
    requires line in Split(oldText, NL) && line !in Split(newText, NL) && "--" <= line
    ensures var s := Script(Split(oldText, NL), Split(newText, NL));
            Join(Sides('-', '+', Split(Print(s), NL)), NL) != oldText
  {
    var s := PrintedScript(oldText, newText);
    var k := OnOldSide(s, line);
    if s[k].kind == Ctx { NewSideHolds(s, k); }
    assert LooksLikeOldHeader(s[k]);
    OldRoundTrip(oldText, newText);
  }

  /** A line starting with `++` that the old text did not have is lost to the reader. */
  lemma AddedPlusesAreLost(oldText: string, newText: string, line: string)
    requires line in Split(newText, NL) && line !in Split(oldText, NL) && "++" <= line
    ensures var s := Script(Split(oldText, NL), Split(newText, NL));
            Join(Sides('+', '-', Split(Print(s), NL)), NL) != newText
  {
    var s := PrintedScript(oldText, newText);
    var k := OnNewSide(s, line);
    if s[k].kind == Ctx { OldSideHolds(s, k); }
    assert LooksLikeNewHeader(s[k]);
    NewRoundTrip(oldText, newText);
  }

  /** An SQL comment replaced by an increment, in texts of one line: neither text reads back. */
  lemma CommentAndIncrement()
    ensures var s := Script(Split("-- x", NL), Split("++x", NL));
            && Join(Sides('-', '+', Split(Print(s), NL)), NL) != "-- x"
            && Join(Sides('+', '-', Split(Print(s), NL)), NL) != "++x"
  {
    var comment, increment := "-- x", "++x";
    SplitWithoutSeparator(comment, NL);
    SplitWithoutSeparator(increment, NL);
    assert comment[0] != increment[0];
    RemovedDashesAreLost(comment, increment, comment);
    AddedPlusesAreLost(comment, increment, increment);
  }
}
