/**
 Concrete messages (frontend/js/messages.js:1360-1721) on which the renderers part: an open fence streamed
 to its end, the same fence formatted in one go, the usual table, and a fence whose language cannot be
 looked up.
*/
module MarkdownExamples {
  import opened Text
  import opened MarkdownLines
  import opened MarkdownStream
  import opened MarkdownBatch
  import opened MarkdownHeaders
  import CodeHighlight

  // ---- an open fence with one line -------------------------------------------------------------

  /** A fence, one line of code, and a newline behind each. */
  ghost predicate OpenFence(fence: string, line: string, text: string) {
    && Classify(fence).Fence? && !ClosesCode(line) && NL !in fence && NL !in line && line != ""
    && text == fence + [NL] + line + [NL] && !Unhighlightable(Classify(fence).lang)
  }

  lemma FenceLines(fence: string, line: string, text: string)
    requires NL !in fence && NL !in line && text == fence + [NL] + line + [NL]
    ensures Split(text, NL) == [fence, line, ""] && Split(fence + [NL] + line, NL) == [fence, line]
  {
    hide Split;
    assert text == fence + [NL] + (line + [NL] + "");
    SplitConcat(fence, line + [NL] + "", NL);
    SplitConcat(line, "", NL);
    SplitConcat(fence, line, NL);
    SplitWithoutSeparator(fence, NL);
    SplitWithoutSeparator(line, NL);
    SplitWithoutSeparator("", NL);
  }

  lemma FenceRuns(fence: string, line: string)
    requires Classify(fence).Fence? && !ClosesCode(line)
    ensures Run(START, [fence, line]) == Md([Code(Classify(fence).lang, line)], InCode(false), false)
    ensures NoneClosed([fence, line]) && LanguageAfter([fence, line]) == Lang(Classify(fence).lang)
  {
    hide Classify, ClosesCode, StepAs, NextLanguage, Unfit;
    var lines, kind := [fence, line], Classify(fence);
    assert lines[..|lines| - 1] == [fence] && lines[..0] == [] && [fence][..0] == [];
    OpensCode(fence, kind, ClosesCode(fence));
    FirstCodeLine(kind.lang, line, Classify(line));
    RunOne(START, fence);
    NoneUnfit();
    assert LanguageAfter([]) == NoCode && LanguageAfter([fence]) == Lang(kind.lang);
  }

  lemma OpensCode(fence: string, kind: Kind, closes: bool)
    requires kind.Fence?
    ensures StepAs(START, fence, kind, closes) == Md([Code(kind.lang, "")], InCode(true), false)
    ensures NextLanguage(NoCode, kind, closes) == Lang(kind.lang)
  {
  }

  lemma FirstCodeLine(lang: string, line: string, kind: Kind)
    ensures StepAs(Md([Code(lang, "")], InCode(true), false), line, kind, false)
         == Md([Code(lang, line)], InCode(false), false)
    ensures NextLanguage(Lang(lang), kind, false) == Lang(lang)
  {
    assert "" + "" + line == line;
  }

  /** Rendered whole as it streams in, and then flushed, the code block is a line short. Nothing throws. */
  lemma OpenFenceStreamed(fence: string, line: string, text: string)
    requires OpenFence(fence, line, text)
    ensures Unbroken([text], text) && Flush(RenderAll(FRESH, [text]), text) != Flush(FRESH, text)
  {
    hide Classify, ClosesCode, Split, Step, Run, Flush, CommitLength, Unhighlightable, NoneClosed, Feed;
    var raws := [text];
    FenceLines(fence, line, text);
    FenceRuns(fence, line);
    FenceFits(fence, line, text);
    ChunkingIsIrrelevant(raws, text);
    assert raws[..|raws| - 1] == [] && RenderAll(FRESH, raws) == Render(FRESH, text).view;
    assert text[0..] == text && text[..|text|] == text;
    EndsLine(text);
    assert CompleteLines(text) == [fence, line];
    FeedThrows([fence, line]);
    FeedRuns(START, [fence, line]);
  }

  lemma FenceFits(fence: string, line: string, text: string)
    requires OpenFence(fence, line, text)
    ensures Highlightable(text)
  {
    hide Classify, ClosesCode, Split, NoneClosed, Unhighlightable;
    FenceLines(fence, line, text);
    FenceRuns(fence, line);
    EmptyLinesFit([fence, line], 1);
    assert [fence, line, ""] == [fence, line] + EmptyLines(1);
  }

  lemma EndsLine(text: string)
    requires |text| > 0 && text[|text| - 1] == NL
    ensures CommitLength(text) == |text|
  {
  }

  /** The one-shot rendering drops the newline the streaming one keeps as a line of code. */
  lemma OpenFenceFormatted(fence: string, line: string, text: string)
    requires OpenFence(fence, line, text)
    ensures Highlightable(text) && Erase(Flush(FRESH, text).blocks) != StripBreaks(Erase(Formed(text)))
  {
    hide Classify, ClosesCode, Split, Step, Run, Flush, Format, Erase, StripBreaks, Highlightable, Formed;
    FenceLines(fence, line, text);
    FenceRuns(fence, line);
    FenceFits(fence, line, text);
    var body := fence + [NL] + line;
    assert text[..|body|] == body && text[|body|] == NL;
    StripsOne(body, text);
    FormatGetsThrough(text);
    FlushFresh(text);
    StyledEqualsFormed(text);
  }

  lemma StripsOne(body: string, text: string)
    requires |body| > 0 && body[|body| - 1] != NL && text == body + [NL]
    ensures StripNewlines(text) == body
  {
    assert text[..|text| - 1] == body;
  }

  // ---- the usual table ------------------------------------------------------------------------------

  /** A row, a separator, a row. */
  ghost predicate SmallTable(head: string, rule: string, row: string, text: string) {
    && Classify(head).TableRow? && Classify(rule).Separator? && Classify(row).TableRow?
    && NL !in head && NL !in rule && NL !in row && row != ""
    && text == head + [NL] + (rule + [NL] + row)
  }

  lemma TableLines(head: string, rule: string, row: string)
    requires NL !in head && NL !in rule && NL !in row
    ensures Split(head + [NL] + (rule + [NL] + row), NL) == [head, rule, row]
  {
    hide Split;
    SplitConcat(head, rule + [NL] + row, NL);
    SplitConcat(rule, row, NL);
    SplitWithoutSeparator(head, NL);
    SplitWithoutSeparator(rule, NL);
    SplitWithoutSeparator(row, NL);
  }

  lemma TableFits(head: string, rule: string, row: string)
    requires Classify(head).TableRow? && Classify(rule).Separator? && Classify(row).TableRow?
    ensures NoneClosed([head, rule, row]) && LanguageAfter([head, rule, row]) == NoCode
  {
    hide Classify, ClosesCode;
    var lines := [head, rule, row];
    assert lines[..0] == [] && lines[..1] == [head] && lines[..2] == [head, rule];
    assert [head][..0] == [] && [head, rule][..1] == [head];
    assert LanguageAfter(lines[..1]) == NoCode && LanguageAfter(lines[..2]) == NoCode;
  }

  /** A table as everyone writes it: header cells in one rendering, plain ones in the other. */
  lemma TableFormatted(head: string, rule: string, row: string, text: string)
    requires SmallTable(head, rule, row, text)
    ensures var flushed, formatted := Flush(FRESH, text), Format(text);
            && !flushed.thrown && formatted.Html?
            && flushed.blocks != formatted.blocks && Erase(flushed.blocks) == Erase(formatted.blocks)
  {
    hide Classify, Split, Flush, Format, Erase, HeadersAgree, NoneClosed, LanguageAfter, RenderAll;
    TableLines(head, rule, row);
    UsualTable(Split(text, NL));
    TableFits(head, rule, row);
    NoneUnfit();
    assert text[|text| - 1] == row[|row| - 1];
    NoRender();
    StreamedIsFormatted([], text);
    OrdinaryEnd(text);
  }

  // ---- a fence whose language is an inherited name -----------------------------------------------------

  /** A closed code block of such a language, and more behind it. */
  ghost predicate ThrownFence(fence: string, line: string, close: string, rest: string, piece: string, text: string) {
    && Classify(fence).Fence? && Unhighlightable(Classify(fence).lang) && ClosesCode(close)
    && !ClosesCode(fence) && !ClosesCode(line) && NL !in fence && NL !in line && NL !in close
    && piece == fence + [NL] + line + [NL] + close + [NL] && text == piece + rest
  }

  lemma ThrownLines(fence: string, line: string, close: string, rest: string, piece: string, text: string)
    requires ThrownFence(fence, line, close, rest, piece, text)
    ensures CommitLength(piece) == |piece| > 0 && CompleteLines(piece) == [fence, line] + [close]
    ensures Split(text, NL) == [fence, line] + [close] + Split(rest, NL)
  {
    hide Classify, ClosesCode, Split, CommitLength, Unhighlightable;
    var body := fence + [NL] + line;
    EndsLine(piece);
    SplitConcat(fence, line, NL);
    SplitWithoutSeparator(fence, NL);
    SplitWithoutSeparator(line, NL);
    SplitWithoutSeparator(close, NL);
    SplitConcat(body, close, NL);
    SplitConcat(body + [NL] + close, "", NL);
    SplitWithoutSeparator("", NL);
    assert piece == body + [NL] + close + [NL] + "";
    SplitBehind(piece, rest);
    assert Split(piece, NL) == [fence, line] + [close] + [""];
  }

  lemma ThrownRun(fence: string, line: string, close: string, more: seq<string>)
    requires Classify(fence).Fence? && Unhighlightable(Classify(fence).lang) && !ClosesCode(line) && ClosesCode(close)
    ensures Feed(START, [fence, line] + [close] + more)
         == Reached(Md([Code(Classify(fence).lang, line)], InCode(false), false), true)
  {
    hide Classify, ClosesCode, Unhighlightable;
    var lines := [fence, line];
    FenceRuns(fence, line);
    FeedThrows(lines);
    FeedRuns(START, lines);
    FeedAppend(START, lines, [close]);
    FeedOne(Run(START, lines), close);
    FeedAppend(START, lines + [close], more);
  }

  /** Behind the throw the same lines are appended once more, into the block that is still open. */
  lemma RepeatedRun(lang: string, fence: string, line: string, close: string, more: seq<string>)
    requires Unhighlightable(lang) && !ClosesCode(fence) && !ClosesCode(line) && ClosesCode(close)
    ensures Feed(Md([Code(lang, line)], InCode(false), false), [fence, line] + [close] + more)
         == Reached(Md([Code(lang, line + [NL] + fence + [NL] + line)], InCode(false), false), true)
  {
    hide Classify, ClosesCode, Unhighlightable;
    var md := Md([Code(lang, line)], InCode(false), false);
    FeedOne(md, fence);
    var next := Step(md, fence);
    assert next == Md([Code(lang, line + [NL] + fence)], InCode(false), false);
    FeedOne(next, line);
    var last := Step(next, line);
    assert last == Md([Code(lang, line + [NL] + fence + [NL] + line)], InCode(false), false);
    FeedOne(last, close);
    assert [fence, line] + [close] + more == [fence] + ([line] + ([close] + more));
    FeedAppend(md, [fence], [line] + ([close] + more));
    FeedAppend(next, [line], [close] + more);
    FeedAppend(last, [close], more);
  }

  /**
   Rendered as far as the fence is closed, the message throws; the next call appends all its lines again
   and throws again. One flush of the whole text throws as well, but shows each line once, and the one-shot
   rendering returns nothing.
  */
  lemma ThrownFenceStreamed(fence: string, line: string, close: string, rest: string, piece: string, text: string)
    requires ThrownFence(fence, line, close, rest, piece, text)
    ensures Render(FRESH, piece).thrown && Render(FRESH, piece).view.renderedLen == 0
    ensures var lang := Classify(fence).lang;
            && Flush(RenderAll(FRESH, [piece]), text)
               == Flushed([Code(lang, line + [NL] + fence + [NL] + line)], true)
            && Flush(FRESH, text) == Flushed([Code(lang, line)], true)
    ensures Format(text) == Failed
  {
    hide Classify, ClosesCode, Split, Feed, Unhighlightable, CommitLength, Format, Highlightable;
    ThrownLines(fence, line, close, rest, piece, text);
    ThrownRun(fence, line, close, []);
    ThrownRun(fence, line, close, Split(rest, NL));
    RepeatedRun(Classify(fence).lang, fence, line, close, Split(rest, NL));
    assert [fence, line] + [close] + [] == [fence, line] + [close];
    assert piece[0..] == piece && piece[..|piece|] == piece && text[0..] == text && [piece][..0] == [];
    FormatGetsThrough(text);
  }

  // ---- such texts exist -------------------------------------------------------------------------------

  lemma RowKind(line: string)
    requires |line| == 3 && line[0] == '|' && line[2] == '|'
    ensures if IsSeparatorChar(line[1]) then Classify(line) == Separator else Classify(line).TableRow?
  {
    assert Trim(line) == line;
  }

  lemma FenceKind(fence: string, line: string)
    requires |fence| == 3 && fence[0] == fence[1] == fence[2] == '`' && |line| == 1 && line[0] == 'x'
    ensures Classify(fence) == Fence("") && ClosesCode(fence) && !ClosesCode(line)
  {
    assert fence == FENCE && Trim(fence) == fence && Trim(line) == line;
  }

  lemma AnOpenFence() returns (fence: string, line: string, text: string)
    ensures fence == "```" && line == "x" && OpenFence(fence, line, text)
  {
    fence, line := "```", "x";
    text := fence + [NL] + line + [NL];
    FenceKind(fence, line);
    hide Classify, ClosesCode;
  }

  lemma ASmallTable() returns (head: string, rule: string, row: string, text: string)
    ensures head == "|a|" && rule == "|-|" && row == "|b|" && SmallTable(head, rule, row, text)
  {
    head, rule, row := "|a|", "|-|", "|b|";
    text := head + [NL] + (rule + [NL] + row);
    RowKind(head);
    RowKind(rule);
    RowKind(row);
    hide Classify;
  }

  lemma AThrownFence() returns (fence: string, line: string, close: string, rest: string, piece: string, text: string)
    ensures fence == "```constructor" && line == "x" && close == "```" && rest == "y"
    ensures ThrownFence(fence, line, close, rest, piece, text)
  {
    fence, line, close, rest := "```constructor", "x", "```", "y";
    piece := fence + [NL] + line + [NL] + close + [NL];
    text := piece + rest;
    CodeHighlight.ConstructorFence("x");
    FenceKind(close, line);
    NoBareFence(fence);
    assert CodeHighlight.Lower("constructor") == "constructor";
    hide Classify, ClosesCode;
  }

  lemma NoBareFence(fence: string)
    requires |fence| > 3 && fence[0] == '`' && fence[|fence| - 1] == 'r'
    ensures !ClosesCode(fence)
  {
    assert Trim(fence) == fence;
  }
}
