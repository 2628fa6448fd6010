/**
 Streaming Markdown (frontend/js/messages.js:1461-1721): complete lines are styled as they arrive, the
 rest when the turn ends. However the text is cut into pieces, the blocks come out the same, two cases
 aside that are stated exactly; one of them is a code block whose highlighting throws.
*/
module MarkdownStream {
  import opened Text
  import opened MarkdownLines
  import CodeHighlight

  datatype Row = Row(header: bool, cells: seq<string>)

  /** A child of the rendered element. */
  datatype Block =
    | Paragraph(line: string)
    | Break
    | Heading(level: nat, title: string)
    | List(items: seq<string>)
    | Table(rows: seq<Row>)
    | Code(lang: string, text: string)

  // ---- the line machine as a function -----------------------------------------------

  /** Whether the last block still takes lines; `first` is the code block without a line yet. */
  datatype Open = Closed | InList | InTable | InCode(first: bool)

  datatype Md = Md(blocks: seq<Block>, open: Open, header: bool)

  const START: Md := Md([], Closed, false)

  function LastBlock(md: Md): Block
    requires |md.blocks| > 0
  {
    md.blocks[|md.blocks| - 1]
  }

  /** The open block is the last one and of the right kind. */
  predicate WellFormed(md: Md) {
    match md.open
    case Closed => true
    case InList => |md.blocks| > 0 && LastBlock(md).List?
    case InTable => |md.blocks| > 0 && LastBlock(md).Table? && |LastBlock(md).rows| > 0
    case InCode(first) => |md.blocks| > 0 && LastBlock(md).Code? && (first ==> LastBlock(md).text == "")
  }

  function ReplaceLast(md: Md, block: Block): seq<Block>
    requires |md.blocks| > 0
  {
    md.blocks[..|md.blocks| - 1] + [block]
  }

  function Append(md: Md, block: Block, open: Open): Md {
    md.(blocks := md.blocks + [block], open := open)
  }

  /** One line, as `mdAppendLine` handles it when it does not throw. */
  function Step(md: Md, line: string): (r: Md)
    requires WellFormed(md)
    ensures WellFormed(r)
  {
    StepAs(md, line, Classify(line), ClosesCode(line))
  }

  /** The same, given what the line means outside a code block and whether it closes one. */
  function StepAs(md: Md, line: string, kind: Kind, closes: bool): (r: Md)
    requires WellFormed(md)
    ensures WellFormed(r)
  {
    if md.open.InCode? then
      if closes then md.(open := Closed)
      else
        var code := LastBlock(md);
        var text := code.text + (if md.open.first then "" else [NL]) + line;
        md.(blocks := ReplaceLast(md, Code(code.lang, text)), open := InCode(false))
    else match kind
      case Separator => md.(header := true)
      case TableRow(cells) =>
        if md.open.InTable? then
          md.(blocks := ReplaceLast(md, Table(LastBlock(md).rows + [Row(false, cells)])))
        else Append(md, Table([Row(md.header, cells)]), InTable)
      case Header(level, title) => Append(md, Heading(level, title), Closed)
      case Fence(lang) => Append(md, Code(lang, ""), InCode(true))
      case Item(text) =>
        if md.open.InList? then md.(blocks := ReplaceLast(md, List(LastBlock(md).items + [text])))
        else Append(md, List([text]), InList)
      case Blank => Append(md, Break, Closed)
      case Plain => Append(md, Paragraph(line), Closed)
  }

  function Run(md: Md, lines: seq<string>): (r: Md)
    requires WellFormed(md)
    ensures WellFormed(r)
  {
    if |lines| == 0 then md
    else Step(Run(md, lines[..|lines| - 1]), lines[|lines| - 1])
  }

  /** `while (el.lastChild is a BR) remove it`. */
  function StripBreaks(blocks: seq<Block>): (r: seq<Block>)
    ensures |r| <= |blocks| && r == blocks[..|r|]
    ensures |r| > 0 ==> !r[|r| - 1].Break?
    ensures forall i :: |r| <= i < |blocks| ==> blocks[i].Break?
  {
    if |blocks| > 0 && blocks[|blocks| - 1].Break? then StripBreaks(blocks[..|blocks| - 1]) else blocks
  }

  lemma {:induction false} RunAppend(md: Md, a: seq<string>, b: seq<string>)
    requires WellFormed(md)
    ensures Run(md, a + b) == Run(Run(md, a), b)
  {
    if |b| == 0 {
      assert a + b == a;
    } else {
      assert (a + b)[..|a + b| - 1] == a + b[..|b| - 1];
      RunAppend(md, a, b[..|b| - 1]);
    }
  }

  lemma RunOne(md: Md, line: string)
    requires WellFormed(md)
    ensures Run(md, [line]) == Step(md, line)
  {
    assert [line][..0] == [];
  }

  // ---- highlighting that throws ----------------------------------------------------------

  /** The look-up of the keyword list finds an inherited value, so highlighting throws whatever the code. */
  predicate Unhighlightable(lang: string) { CodeHighlight.Lookup(CodeHighlight.Lower(lang)).Inherited? }

  /** The language of the open code block, if there is one. */
  datatype Language = NoCode | Lang(name: string)

  predicate Unfit(lang: Language) { lang.Lang? && Unhighlightable(lang.name) }

  function LanguageOf(md: Md): Language
    requires WellFormed(md)
  {
    if md.open.InCode? then Lang(LastBlock(md).lang) else NoCode
  }

  /** Closing a code block highlights it, before anything else happens. */
  predicate Throws(md: Md, line: string)
    requires WellFormed(md)
  {
    Unfit(LanguageOf(md)) && ClosesCode(line)
  }

  /** A state reached, and whether an exception ended the run there. */
  datatype Reached = Reached(md: Md, thrown: bool)

  /** Lines one by one, up to the first that throws; that one changes nothing. */
  function Feed(md: Md, lines: seq<string>): (r: Reached)
    requires WellFormed(md)
    ensures WellFormed(r.md)
  {
    if |lines| == 0 then Reached(md, false)
    else
      var before, line := Feed(md, lines[..|lines| - 1]), lines[|lines| - 1];
      if before.thrown || Throws(before.md, line) then before.(thrown := true)
      else Reached(Step(before.md, line), false)
  }

  /** As long as nothing throws, the lines run through. */
  lemma {:induction false} FeedRuns(md: Md, lines: seq<string>)
    requires WellFormed(md)
    ensures !Feed(md, lines).thrown ==> Feed(md, lines).md == Run(md, lines)
  {
    if |lines| > 0 {
      FeedRuns(md, lines[..|lines| - 1]);
    }
  }

  lemma {:induction false} FeedAppend(md: Md, a: seq<string>, b: seq<string>)
    requires WellFormed(md)
    ensures Feed(md, a + b) == if Feed(md, a).thrown then Feed(md, a) else Feed(Feed(md, a).md, b)
  {
    hide Step, Throws;
    if |b| == 0 {
      assert a + b == a;
    } else {
      assert (a + b)[..|a + b| - 1] == a + b[..|b| - 1];
      FeedAppend(md, a, b[..|b| - 1]);
    }
  }

  lemma FeedNone(md: Md)
    requires WellFormed(md)
    ensures Feed(md, []) == Reached(md, false)
  {
  }

  lemma FeedOne(md: Md, line: string)
    requires WellFormed(md)
    ensures Feed(md, [line]) == if Throws(md, line) then Reached(md, true) else Reached(Step(md, line), false)
  {
    assert [line][..0] == [];
  }

  // ---- fences, line by line: which texts throw ---------------------------------------------

  /** A fence opens a code block, a bare one closes it. */
  function NextLanguage(lang: Language, kind: Kind, closes: bool): Language {
    if lang.Lang? then (if closes then NoCode else lang)
    else if kind.Fence? then Lang(kind.lang)
    else NoCode
  }

  /** The language of the code block open behind some lines. */
  function LanguageAfter(lines: seq<string>): Language {
    if |lines| == 0 then NoCode
    else
      var line := lines[|lines| - 1];
      NextLanguage(LanguageAfter(lines[..|lines| - 1]), Classify(line), ClosesCode(line))
  }

  /** Line `k` closes a code block that cannot be highlighted. */
  predicate ClosesUnfit(lines: seq<string>, k: nat)
    requires k < |lines|
  {
    Unfit(LanguageAfter(lines[..k])) && ClosesCode(lines[k])
  }

  predicate NoneClosed(lines: seq<string>) { forall k: nat :: k < |lines| ==> !ClosesUnfit(lines, k) }

  /** No code block that cannot be highlighted is closed, and none is left open at the end. */
  predicate Highlightable(text: string) {
    NoneClosed(Split(text, NL)) && !Unfit(LanguageAfter(Split(text, NL)))
  }

  lemma StepLanguage(md: Md, line: string, kind: Kind, closes: bool)
    requires WellFormed(md)
    ensures LanguageOf(StepAs(md, line, kind, closes)) == NextLanguage(LanguageOf(md), kind, closes)
  {
  }

  lemma {:induction false} RunLanguage(lines: seq<string>)
    ensures LanguageOf(Run(START, lines)) == LanguageAfter(lines)
  {
    if |lines| > 0 {
      hide Classify, ClosesCode, StepAs, NextLanguage, LanguageOf;
      var init, line := lines[..|lines| - 1], lines[|lines| - 1];
      RunLanguage(init);
      StepLanguage(Run(START, init), line, Classify(line), ClosesCode(line));
    } else {
      assert LanguageOf(START) == NoCode;
    }
  }

  lemma ClosedSnoc(lines: seq<string>, line: string)
    ensures NoneClosed(lines + [line]) <==> NoneClosed(lines) && !(Unfit(LanguageAfter(lines)) && ClosesCode(line))
  {
    hide Unfit, LanguageAfter, ClosesCode;
    var all := lines + [line];
    forall k: nat | k < |lines| ensures ClosesUnfit(all, k) <==> ClosesUnfit(lines, k) {
      assert all[..k] == lines[..k];
    }
    assert all[..|lines|] == lines;
    assert NoneClosed(all) ==> !ClosesUnfit(all, |lines|);
    if NoneClosed(all) {
      forall k: nat | k < |lines| ensures !ClosesUnfit(lines, k) { assert !ClosesUnfit(all, k); }
    }
  }

  lemma NothingFed()
    ensures Feed(START, []) == Reached(START, false) && NoneClosed([])
  {
  }

  lemma LastThrows(init: seq<string>, line: string)
    ensures Feed(START, init + [line]).thrown
            <==> Feed(START, init).thrown || (Unfit(LanguageAfter(init)) && ClosesCode(line))
  {
    hide Unfit, LanguageAfter, ClosesCode, Step, Run, LanguageOf;
    assert (init + [line])[..|init|] == init;
    FeedRuns(START, init);
    RunLanguage(init);
  }

  /** Lines go through exactly when none of them closes a code block that cannot be highlighted. */
  lemma {:induction false} FeedThrows(lines: seq<string>)
    ensures Feed(START, lines).thrown <==> !NoneClosed(lines)
  {
    hide *;
    if |lines| == 0 {
      NothingFed();
      assert lines == [];
    } else {
      var init, line := lines[..|lines| - 1], lines[|lines| - 1];
      FeedThrows(init);
      LastThrows(init, line);
      ClosedSnoc(init, line);
      assert init + [line] == lines;
    }
  }

  /** Where a run goes through, so does every beginning of it. */
  lemma FeedBeginning(md: Md, a: seq<string>, b: seq<string>)
    requires WellFormed(md) && !Feed(md, a + b).thrown
    ensures !Feed(md, a).thrown
  {
    FeedAppend(md, a, b);
  }

  // ---- lines of a text that is still growing -------------------------------------------

  /** One past the last newline: how much of the text is complete lines. */
  function CommitLength(s: string): (n: nat)
    ensures n <= |s| && (n > 0 ==> s[n - 1] == NL) && NL !in s[n..]
  {
    if |s| == 0 then 0
    else if s[|s| - 1] == NL then |s|
    else
      var n := CommitLength(s[..|s| - 1]);
      assert s[n..] == s[..|s| - 1][n..] + [s[|s| - 1]];
      n
  }

  predicate Complete(s: string) { |s| == 0 || s[|s| - 1] == NL }

  function AllButLast(lines: seq<string>): seq<string>
    requires |lines| > 0
  {
    lines[..|lines| - 1]
  }

  /** The terminated lines of a text: `split('\n')` followed by `pop()`. */
  function CompleteLines(s: string): seq<string> { AllButLast(Split(s, NL)) }

  /** Behind a complete text the lines just continue. */
  lemma SplitBehind(p: string, q: string)
    requires Complete(p)
    ensures Split(p + q, NL) == CompleteLines(p) + Split(q, NL)
    ensures CompleteLines(p + q) == CompleteLines(p) + CompleteLines(q)
  {
    if |p| == 0 {
      assert p + q == q && CompleteLines(p) == [];
    } else {
      var body := p[..|p| - 1];
      assert p == body + [NL] + "" && p + q == body + [NL] + q;
      SplitConcat(body, "", NL);
      SplitConcat(body, q, NL);
      assert CompleteLines(p) == Split(body, NL);
      assert AllButLast(Split(body, NL) + Split(q, NL)) == Split(body, NL) + AllButLast(Split(q, NL));
    }
  }

  /** A complete, non-empty text splits into its lines and an empty rest. */
  lemma SplitComplete(p: string)
    requires Complete(p) && |p| > 0
    ensures Split(p, NL) == CompleteLines(p) + [""]
  {
    SplitBehind(p, "");
    assert p + "" == p;
  }

  // ---- rendering a growing text -----------------------------------------------------------

  /** The element with its renderer: how much of the text is styled, and the machine. */
  datatype View = View(renderedLen: nat, md: Md)

  const FRESH: View := View(0, START)

  /** What a render leaves behind, and whether it threw. */
  datatype Rendering = Rendering(view: View, thrown: bool)

  /** Both entry points start over on a text shorter than what is styled. */
  function Restarted(v: View, raw: string): (u: View)
    requires WellFormed(v.md)
    ensures WellFormed(u.md) && u.renderedLen <= |raw|
  {
    if |raw| < v.renderedLen then FRESH else v
  }

  /** `renderIncrementalMarkdown`. A throw leaves the lines appended and the length where it was. */
  function Render(v: View, raw: string): (r: Rendering)
    requires WellFormed(v.md)
    ensures WellFormed(r.view.md) && r.view.renderedLen <= |raw|
  {
    var u := Restarted(v, raw);
    var pending := raw[u.renderedLen..];
    var n := CommitLength(pending);
    var fed := Feed(u.md, CompleteLines(pending[..n]));
    if n == 0 then Rendering(u, false)
    else Rendering(View(u.renderedLen + if fed.thrown then 0 else n, fed.md), fed.thrown)
  }

  /** The blocks the turn ends with, and whether the flush threw on the way. */
  datatype Flushed = Flushed(blocks: seq<Block>, thrown: bool)

  /** `flushIncrementalMarkdown`. */
  function Flush(v: View, raw: string): Flushed
    requires WellFormed(v.md)
  {
    var u := Restarted(v, raw);
    var partial := raw[u.renderedLen..];
    Finished(Feed(u.md, if partial == "" then [] else Split(partial, NL)))
  }

  /** A code block still open is highlighted too; only then the trailing breaks go. */
  function Finished(fed: Reached): Flushed
    requires WellFormed(fed.md)
  {
    if fed.thrown || Unfit(LanguageOf(fed.md)) then Flushed(fed.md.blocks, true)
    else Flushed(StripBreaks(fed.md.blocks), false)
  }

  /** Renders one after the other, going on with what a throwing one leaves behind. */
  function RenderAll(v: View, raws: seq<string>): (r: View)
    requires WellFormed(v.md)
    ensures WellFormed(r.md)
  {
    if |raws| == 0 then v else Render(RenderAll(v, raws[..|raws| - 1]), raws[|raws| - 1]).view
  }

  /** How many renders come before the first that throws. */
  function Rendered(raws: seq<string>): (k: nat)
    ensures k <= |raws|
  {
    if |raws| == 0 then 0
    else
      var init := raws[..|raws| - 1];
      var k := Rendered(init);
      if k == |init| && !Render(RenderAll(FRESH, init), raws[|raws| - 1]).thrown then |raws| else k
  }

  /** The consumed part ends a line. */
  predicate Consumes(n: nat, text: string) {
    n <= |text| && Complete(text[..n])
  }

  /** What a view has styled is exactly the complete lines of the part it has consumed. */
  predicate Tracks(v: View, text: string) {
    Consumes(v.renderedLen, text) && Feed(START, CompleteLines(text[..v.renderedLen])) == Reached(v.md, false)
  }

  lemma FreshTracks(text: string)
    ensures Tracks(FRESH, text)
  {
    assert text[..0] == "" && CompleteLines("") == [];
  }

  /** What follows the last newline adds no complete line. */
  lemma CommittedLines(s: string)
    ensures CompleteLines(s) == CompleteLines(s[..CommitLength(s)]) && Complete(s[..CommitLength(s)])
  {
    hide Split;
    var n := CommitLength(s);
    assert s == s[..n] + s[n..];
    SplitBehind(s[..n], s[n..]);
    SplitWithoutSeparator(s[n..], NL);
    assert CompleteLines(s[n..]) == [];
  }

  /** Feeding lines behind a complete part that went through. */
  lemma FeedContinues(head: string, more: string, md: Md)
    requires Complete(head) && WellFormed(md) && Feed(START, CompleteLines(head)) == Reached(md, false)
    ensures Feed(START, CompleteLines(head + more)) == Feed(md, CompleteLines(more))
    ensures Feed(START, Split(head + more, NL)) == Feed(md, Split(more, NL))
  {
    hide Step, Throws, Split, Feed, CompleteLines, Complete;
    SplitBehind(head, more);
    FeedAppend(START, CompleteLines(head), CompleteLines(more));
    FeedAppend(START, CompleteLines(head), Split(more, NL));
  }

  lemma CompleteJoin(a: string, b: string)
    requires Complete(a) && Complete(b)
    ensures Complete(a + b)
  {
    if |b| > 0 {
      assert (a + b)[|a + b| - 1] == b[|b| - 1];
    } else {
      assert a + b == a;
    }
  }

  /** From a view that tracks, a render throws just when the piece's lines do, and otherwise keeps track. */
  lemma RenderTracks(v: View, raw: string, text: string)
    requires WellFormed(v.md) && Tracks(v, text) && raw <= text
    ensures Render(v, raw).thrown <==> Feed(START, CompleteLines(raw)).thrown
    ensures !Render(v, raw).thrown ==> Tracks(Render(v, raw).view, text)
  {
    hide Step, Feed, CompleteLines, Complete, Split, Tracks, Render;
    FreshTracks(text);
    SameRender(v, raw);
    PendingTracks(Restarted(v, raw), raw, text);
  }

  lemma SameRender(v: View, raw: string)
    requires WellFormed(v.md)
    ensures Render(v, raw) == Render(Restarted(v, raw), raw)
  {
    hide Step, Feed, CompleteLines;
  }

  lemma PendingTracks(u: View, raw: string, text: string)
    requires WellFormed(u.md) && Tracks(u, text) && raw <= text && u.renderedLen <= |raw|
    ensures Render(u, raw).thrown <==> Feed(START, CompleteLines(raw)).thrown
    ensures !Render(u, raw).thrown ==> Tracks(Render(u, raw).view, text)
  {
    hide Step, Feed, CompleteLines, Complete, Split;
    var head, pending := raw[..u.renderedLen], raw[u.renderedLen..];
    var n := CommitLength(pending);
    assert raw == head + pending && head == text[..u.renderedLen];
    FeedContinues(head, pending, u.md);
    CommittedLines(pending);
    if n == 0 {
      NoLines(pending[..n], u.md);
    } else {
      FeedContinues(head, pending[..n], u.md);
      CompleteJoin(head, pending[..n]);
      PieceOf(raw, text, u.renderedLen, n);
    }
  }

  lemma PieceOf(raw: string, text: string, a: nat, n: nat)
    requires raw <= text && a + n <= |raw|
    ensures raw[..a] + raw[a..][..n] == text[..a + n]
  {
  }

  lemma NoLines(s: string, md: Md)
    requires s == "" && WellFormed(md)
    ensures CompleteLines(s) == [] && Feed(md, CompleteLines(s)) == Reached(md, false)
  {
  }

  /**
   Up to the first render that throws, any pieces of a text leave blocks that are those of exactly the
   complete lines consumed. That render is the first piece whose complete lines close a code block that
   cannot be highlighted.
  */
  lemma {:induction false} RenderAllTracks(raws: seq<string>, text: string)
    requires forall i :: 0 <= i < |raws| ==> raws[i] <= text
    ensures var k := Rendered(raws);
            && Tracks(RenderAll(FRESH, raws[..k]), text)
            && (forall i :: 0 <= i < k ==> NoneClosed(CompleteLines(raws[i])))
            && (k < |raws| ==> !NoneClosed(CompleteLines(raws[k])))
  {
    hide Tracks, Render, NoneClosed, CompleteLines;
    if |raws| == 0 {
      FreshTracks(text);
    } else {
      var init, raw := raws[..|raws| - 1], raws[|raws| - 1];
      RenderAllTracks(init, text);
      var k := Rendered(init);
      assert raws[..k] == init[..k] && raws[..|raws|] == raws && init[..|init|] == init;
      if k == |init| {
        RenderTracks(RenderAll(FRESH, init), raw, text);
        FeedThrows(CompleteLines(raw));
      }
    }
  }

  // ---- independence of the chunking ----------------------------------------------------------

  /** A code block is open and already holds a line. */
  predicate CodeRunning(md: Md) { md.open.InCode? && !md.open.first }

  /** An empty line outside code is a break. */
  lemma EmptyLineOutside(md: Md)
    requires WellFormed(md) && !md.open.InCode?
    ensures Step(md, "") == Append(md, Break, Closed)
    ensures StripBreaks(Step(md, "").blocks) == StripBreaks(md.blocks)
  {
    EmptyLineIsBlank();
    assert (md.blocks + [Break])[..|md.blocks|] == md.blocks;
  }

  lemma EmptyLineInside(md: Md)
    requires WellFormed(md) && md.open.InCode?
    ensures var text := LastBlock(md).text + if md.open.first then "" else [NL];
            Step(md, "") == md.(blocks := ReplaceLast(md, Code(LastBlock(md).lang, text)), open := InCode(false))
  {
    EmptyLineIsBlank();
    assert LastBlock(md).text + (if md.open.first then "" else [NL]) + ""
        == LastBlock(md).text + if md.open.first then "" else [NL];
  }

  /** One more empty line changes the finished blocks exactly when it lands in a running code block. */
  lemma EmptyLineMatters(md: Md)
    requires WellFormed(md)
    ensures StripBreaks(Step(md, "").blocks) == StripBreaks(md.blocks) <==> !CodeRunning(md)
  {
    if md.open.InCode? {
      EmptyLineInside(md);
      var code, r := LastBlock(md), Step(md, "");
      assert md.blocks == ReplaceLast(md, code);
      NotBreakKept(md.blocks);
      NotBreakKept(r.blocks);
      if md.open.first {
        assert code.text + "" == code.text;
      } else {
        assert |LastBlock(r).text| == |code.text| + 1;
      }
    } else {
      EmptyLineOutside(md);
    }
  }

  lemma NotBreakKept(blocks: seq<Block>)
    requires |blocks| > 0 && !blocks[|blocks| - 1].Break?
    ensures StripBreaks(blocks) == blocks
  {
  }

  /** An open code block is no break, so a flush that throws on it strips nothing it should not. */
  lemma FinishedBlocks(fed: Reached)
    requires WellFormed(fed.md) && !fed.thrown
    ensures Finished(fed) == Flushed(StripBreaks(fed.md.blocks), Unfit(LanguageOf(fed.md)))
  {
    if fed.md.open.InCode? { NotBreakKept(fed.md.blocks); }
  }

  /** The blocks of a text whose code blocks can all be highlighted. */
  function Styled(text: string): seq<Block> { StripBreaks(Run(START, Split(text, NL)).blocks) }

  /** The one line of the empty text leaves nothing behind. */
  lemma EmptyText(lines: seq<string>)
    requires lines == [""]
    ensures StripBreaks(Run(START, lines).blocks) == []
    ensures NoneClosed(lines) && LanguageAfter(lines) == NoCode
  {
    RunOne(START, "");
    EmptyLineMatters(START);
    EmptyLineIsBlank();
    assert lines[..0] == [];
  }

  /** A flush from scratch gets through exactly when every code block can be highlighted. */
  lemma FlushFresh(text: string)
    ensures Flush(FRESH, text) == Finished(Feed(START, if text == "" then [] else Split(text, NL)))
    ensures Flush(FRESH, text).thrown <==> !Highlightable(text)
    ensures Highlightable(text) ==> Flush(FRESH, text) == Flushed(Styled(text), false)
  {
    hide Step, Throws, Classify, ClosesCode, StripBreaks, NoneClosed, LanguageAfter, Split, Feed, Run, Unfit;
    assert text[0..] == text;
    var lines := Split(text, NL);
    if text == "" {
      assert lines == [""] by { SplitWithoutSeparator("", NL); }
      EmptyText(lines);
      assert Unfit(NoCode) == false by { assert !NoCode.Lang?; NoneUnfit(); }
      NothingFed();
      NothingFinished();
    } else {
      FeedThrows(lines);
      FeedRuns(START, lines);
      RunLanguage(lines);
      if !Feed(START, lines).thrown { FinishedBlocks(Feed(START, lines)); }
    }
  }

  lemma NoneUnfit()
    ensures !Unfit(NoCode)
  {
  }

  lemma NothingFinished()
    ensures Finished(Reached(START, false)) == Flushed([], false)
  {
  }

  /** With something left to style, the flush catches up with the whole text. */
  lemma FlushRest(v: View, text: string)
    requires WellFormed(v.md) && Tracks(v, text) && v.renderedLen < |text|
    ensures Flush(v, text) == Flush(FRESH, text)
  {
    hide Step, Feed, Split, CompleteLines, Finished;
    var head, partial := text[..v.renderedLen], text[v.renderedLen..];
    assert text == head + partial && text[0..] == text;
    FeedContinues(head, partial, v.md);
  }

  /** With nothing left, the flush lacks the empty line behind the final newline. */
  lemma FlushNothing(v: View, text: string)
    requires WellFormed(v.md) && Tracks(v, text) && v.renderedLen == |text| > 0
    ensures Flush(v, text) == Flush(FRESH, text) <==> !CodeRunning(v.md)
    ensures Flush(v, text).thrown == Flush(FRESH, text).thrown
  {
    hide Step, Classify, ClosesCode, StripBreaks, Split, CompleteLines, Unfit;
    assert text[..|text|] == text && text[0..] == text && text[|text|..] == "" && text + "" == text;
    FeedContinues(text, "", v.md);
    SplitWithoutSeparator("", NL);
    EmptyLineIsBlank();
    FeedOne(v.md, "");
    StepLanguage(v.md, "", Blank, false);
    assert LanguageOf(Step(v.md, "")) == LanguageOf(v.md) by { SameLanguage(v.md); }
    FinishedBlocks(Reached(v.md, false));
    FinishedBlocks(Reached(Step(v.md, ""), false));
    EmptyLineMatters(v.md);
  }

  lemma SameLanguage(md: Md)
    requires WellFormed(md)
    ensures LanguageOf(Step(md, "")) == LanguageOf(md)
  {
    EmptyLineIsBlank();
    StepLanguage(md, "", Blank, false);
  }

  /** Neither the renders nor the flush threw. */
  predicate Unbroken(raws: seq<string>, text: string) {
    Rendered(raws) == |raws| && !Flush(RenderAll(FRESH, raws), text).thrown
  }

  /** The complete lines of a beginning are lines of the text. */
  lemma LinesOfPiece(raw: string, text: string) returns (rest: string)
    requires raw <= text
    ensures Split(text, NL) == CompleteLines(raw) + Split(rest, NL)
  {
    var n := CommitLength(raw);
    rest := text[n..];
    CommittedLines(raw);
    assert text == raw[..n] + rest;
    SplitBehind(raw[..n], rest);
  }

  lemma PieceThrough(raw: string, text: string)
    requires raw <= text && NoneClosed(Split(text, NL))
    ensures NoneClosed(CompleteLines(raw))
  {
    hide Step, Throws, NoneClosed, Split, CompleteLines, Feed;
    var rest := LinesOfPiece(raw, text);
    FeedThrows(Split(text, NL));
    FeedBeginning(START, CompleteLines(raw), Split(rest, NL));
    FeedThrows(CompleteLines(raw));
  }

  /**
   Any prefixes of a text may be rendered, in any order, before the flush. They and the flush get through
   exactly when no code block that cannot be highlighted is closed or left open. As long as no render
   throws, the flush ends as one flush of the whole text does, unless the renders had already consumed
   the whole text, newline included, while a code block with at least one line was open.
  */
  lemma ChunkingIsIrrelevant(raws: seq<string>, text: string)
    requires forall i :: 0 <= i < |raws| ==> raws[i] <= text
    ensures Unbroken(raws, text) <==> Highlightable(text)
    ensures var v := RenderAll(FRESH, raws);
            Rendered(raws) == |raws| ==>
              (Flush(v, text) == Flush(FRESH, text)
               <==> !(|text| > 0 && v.renderedLen == |text| && CodeRunning(v.md)))
  {
    hide NoneClosed, CompleteLines, Split, Feed, Flush, RenderAll, CodeRunning, LanguageAfter, Unfit;
    var v, k := RenderAll(FRESH, raws), Rendered(raws);
    RenderAllTracks(raws, text);
    FlushFresh(text);
    if k < |raws| {
      if Highlightable(text) { PieceThrough(raws[k], text); }
    } else {
      assert raws[..k] == raws;
      if v.renderedLen < |text| {
        FlushRest(v, text);
      } else if text != "" {
        FlushNothing(v, text);
      } else {
        EmptyTracks(v);
      }
    }
  }

  lemma EmptyTracks(v: View)
    requires WellFormed(v.md) && Tracks(v, "")
    ensures v == FRESH
  {
    assert ""[..0] == "" && CompleteLines("") == [];
  }

  // ---- growing texts, and what a throw does to them ------------------------------------------------

  ghost predicate Growing(raws: seq<string>) {
    forall i, j :: 0 <= i < j < |raws| ==> raws[i] <= raws[j]
  }

  predicate SomeCloses(lines: seq<string>) { exists k :: 0 <= k < |lines| && ClosesCode(lines[k]) }

  lemma SomeClosesPlus(a: seq<string>, b: seq<string>)
    ensures SomeCloses(a + b) <==> SomeCloses(a) || SomeCloses(b)
  {
    hide ClosesCode;
    if SomeCloses(b) {
      var k :| 0 <= k < |b| && ClosesCode(b[k]);
      assert (a + b)[|a| + k] == b[k];
    }
    if SomeCloses(a) {
      var k :| 0 <= k < |a| && ClosesCode(a[k]);
      assert (a + b)[k] == a[k];
    }
  }

  /** In a code block that cannot be highlighted lines throw just when one closes it, and none opens another. */
  lemma {:induction false} FeedUnfit(md: Md, lines: seq<string>)
    requires WellFormed(md) && Unfit(LanguageOf(md))
    ensures Feed(md, lines).thrown <==> SomeCloses(lines)
    ensures LanguageOf(Feed(md, lines).md) == LanguageOf(md)
  {
    if |lines| > 0 {
      hide Step, Unfit, ClosesCode, LanguageOf, NextLanguage, SomeCloses, WellFormed;
      var init, line := lines[..|lines| - 1], lines[|lines| - 1];
      FeedUnfit(md, init);
      if !ClosesCode(line) { StaysInside(Feed(md, init).md, line); }
      SomeClosesPlus(init, [line]);
      OneCloses(line);
      assert lines == init + [line];
    }
  }

  lemma OneCloses(line: string)
    ensures SomeCloses([line]) <==> ClosesCode(line)
  {
    assert ClosesCode(line) ==> ClosesCode([line][0]);
  }

  lemma StaysInside(md: Md, line: string)
    requires WellFormed(md) && Unfit(LanguageOf(md)) && !ClosesCode(line)
    ensures LanguageOf(Step(md, line)) == LanguageOf(md)
  {
    StepLanguage(md, line, Classify(line), ClosesCode(line));
  }

  /** A throw happens on a line that closes a code block, and leaves that block open. */
  lemma {:induction false} FeedThrew(md: Md, lines: seq<string>)
    requires WellFormed(md) && Feed(md, lines).thrown
    ensures Unfit(LanguageOf(Feed(md, lines).md)) && SomeCloses(lines)
  {
    hide Step, Unfit, ClosesCode, LanguageOf;
    var init, line := lines[..|lines| - 1], lines[|lines| - 1];
    if Feed(md, init).thrown {
      FeedThrew(md, init);
      SomeClosesPlus(init, [line]);
      assert lines == init + [line];
    } else {
      assert ClosesCode(lines[|lines| - 1]);
    }
  }

  /** The view is inside a code block that cannot be highlighted, and the text goes on to close it. */
  predicate Stuck(v: View, raw: string) {
    && WellFormed(v.md) && Unfit(LanguageOf(v.md)) && v.renderedLen <= |raw|
    && SomeCloses(CompleteLines(raw[v.renderedLen..]))
  }

  lemma ThrownIsStuck(v: View, raw: string)
    requires WellFormed(v.md) && Render(v, raw).thrown
    ensures Stuck(Render(v, raw).view, raw) && Render(v, raw).view.renderedLen == Restarted(v, raw).renderedLen
  {
    hide Feed, Unfit, SomeCloses, LanguageOf, CompleteLines;
    var u := Restarted(v, raw);
    var pending := raw[u.renderedLen..];
    FeedThrew(u.md, CompleteLines(pending[..CommitLength(pending)]));
    CommittedLines(pending);
  }

  lemma StuckThrows(v: View, raw: string)
    requires Stuck(v, raw)
    ensures Render(v, raw).thrown && Flush(v, raw).thrown
  {
    hide Feed, Unfit, SomeCloses, LanguageOf, CompleteLines;
    var pending := raw[v.renderedLen..];
    var lines := CompleteLines(pending);
    CommittedLines(pending);
    FeedUnfit(v.md, lines);
    if pending == "" || CommitLength(pending) == 0 { NoLines(pending[..CommitLength(pending)], v.md); }
    var rest := LinesOfPiece(pending, pending);
    FeedAppend(v.md, lines, Split(rest, NL));
  }

  lemma StuckLonger(v: View, raw: string, longer: string)
    requires Stuck(v, raw) && raw <= longer
    ensures Stuck(v, longer)
  {
    hide Unfit, SomeCloses, LanguageOf, CompleteLines, Split;
    var pending, more := raw[v.renderedLen..], longer[v.renderedLen..];
    assert pending <= more;
    var n := CommitLength(pending);
    CommittedLines(pending);
    assert more == pending[..n] + more[n..];
    SplitBehind(pending[..n], more[n..]);
    SomeClosesPlus(CompleteLines(pending), CompleteLines(more[n..]));
  }

  /** On a growing text the view has consumed just the complete lines of the latest piece that went through. */
  lemma {:induction false} GrowingCommits(raws: seq<string>)
    requires Growing(raws) && |raws| > 0
    ensures var k := Rendered(raws);
            && RenderAll(FRESH, raws).renderedLen == (if k == 0 then 0 else CommitLength(raws[k - 1]))
            && (k < |raws| ==> Stuck(RenderAll(FRESH, raws), raws[|raws| - 1]))
  {
    hide Render, Stuck, CommitLength, Growing, Rendered;
    var raw, before := raws[|raws| - 1], raws[..|raws| - 1];
    var v, k := RenderAll(FRESH, before), Rendered(before);
    GrowingPieces(raws);
    LastRendered(raws);
    if |before| > 0 {
      GrowingCommits(before);
      if k < |before| {
        StuckLonger(v, before[|before| - 1], raw);
        StuckThrows(v, raw);
      } else {
        PrefixCommits(before[k - 1], raw);
      }
    }
    if Render(v, raw).thrown {
      ThrownIsStuck(v, raw);
    } else {
      RenderCommits(v, raw);
    }
  }

  lemma GrowingPieces(raws: seq<string>)
    requires Growing(raws) && |raws| > 0
    ensures Growing(raws[..|raws| - 1])
    ensures forall i :: 0 <= i < |raws| ==> raws[i] <= raws[|raws| - 1]
  {
  }

  lemma LastRendered(raws: seq<string>)
    requires |raws| > 0
    ensures var before := raws[..|raws| - 1];
            var last := Render(RenderAll(FRESH, before), raws[|raws| - 1]);
            Rendered(raws) == if Rendered(before) == |before| && !last.thrown then |raws| else Rendered(before)
  {
  }

  /** Once a render has thrown, every later one and the flush throw too, and nothing more is consumed. */
  lemma ThrowsForEver(raws: seq<string>, raw: string)
    requires Growing(raws) && Rendered(raws) < |raws| && raws[|raws| - 1] <= raw
    ensures var v := RenderAll(FRESH, raws);
            Render(v, raw).thrown && Render(v, raw).view.renderedLen == v.renderedLen && Flush(v, raw).thrown
  {
    hide Render, Stuck, Flush;
    var v := RenderAll(FRESH, raws);
    GrowingCommits(raws);
    StuckLonger(v, raws[|raws| - 1], raw);
    StuckThrows(v, raw);
    ThrownIsStuck(v, raw);
    assert v.renderedLen <= |raw| by { assert Stuck(v, raw); StuckWithin(v, raw); }
  }

  lemma StuckWithin(v: View, raw: string)
    requires Stuck(v, raw)
    ensures v.renderedLen <= |raw|
  {
  }

  lemma PrefixCommits(last: string, raw: string)
    requires last <= raw
    ensures CommitLength(last) <= |raw| && Complete(raw[..CommitLength(last)])
  {
    var n := CommitLength(last);
    assert raw[..n] == last[..n];
  }

  lemma RenderCommits(v: View, raw: string)
    requires WellFormed(v.md) && v.renderedLen <= |raw| && Complete(raw[..v.renderedLen])
    requires !Render(v, raw).thrown
    ensures Render(v, raw).view.renderedLen == CommitLength(raw)
  {
    hide Feed, CommitLength, CompleteLines, WellFormed;
    CommitBehind(raw, v.renderedLen);
  }

  lemma CommitUnique(s: string, n: nat)
    requires n <= |s| && (n > 0 ==> s[n - 1] == NL) && NL !in s[n..]
    ensures CommitLength(s) == n
  {
    hide CommitLength;
    NoneBehind(s, n);
    NoneBehind(s, CommitLength(s));
  }

  lemma NoneBehind(s: string, m: nat)
    requires m <= |s|
    ensures NL !in s[m..] <==> forall k :: m <= k < |s| ==> s[k] != NL
  {
    if NL !in s[m..] {
      forall k | m <= k < |s| ensures s[k] != NL { assert s[m..][k - m] == s[k]; }
    }
  }

  lemma CommitBehind(s: string, n: nat)
    requires n <= |s| && Complete(s[..n])
    ensures CommitLength(s) == n + CommitLength(s[n..])
  {
    hide CommitLength;
    var m := CommitLength(s[n..]);
    assert s[n..][m..] == s[n + m..];
    if m > 0 {
      assert s[n..][m - 1] == s[n + m - 1];
    } else if n > 0 {
      assert s[..n][n - 1] == s[n - 1];
    }
    CommitUnique(s, n + m);
  }

  /**
   For a growing text: if the last piece was not the whole text, ending a line, then all goes well, nothing
   throwing and the blocks those of one flush, exactly when every code block can be highlighted.
  */
  lemma StreamingIsChunkFree(raws: seq<string>, text: string)
    requires Growing(raws) && forall i :: 0 <= i < |raws| ==> raws[i] <= text
    requires text == "" || text[|text| - 1] != NL || raws == [] || raws[|raws| - 1] != text
    ensures Unbroken(raws, text) && Flush(RenderAll(FRESH, raws), text) == Flush(FRESH, text)
            <==> Highlightable(text)
  {
    hide Highlightable, Flush, RenderAll, Rendered;
    ChunkingIsIrrelevant(raws, text);
    if |raws| > 0 && |text| > 0 && Rendered(raws) == |raws| {
      GrowingStops(raws, text);
    } else if raws == [] {
      assert RenderAll(FRESH, raws) == FRESH by { NoRender(); }
    }
  }

  lemma NoRender()
    ensures RenderAll(FRESH, []) == FRESH && Rendered([]) == 0
  {
  }

  lemma GrowingStops(raws: seq<string>, text: string)
    requires Growing(raws) && |raws| > 0 && raws[|raws| - 1] <= text && |text| > 0 && Rendered(raws) == |raws|
    requires text[|text| - 1] != NL || raws[|raws| - 1] != text
    ensures RenderAll(FRESH, raws).renderedLen != |text|
  {
    hide Stuck, RenderAll, Rendered;
    GrowingCommits(raws);
  }

  /** A text that does not end a line may be cut up in any way at all, on the same condition. */
  lemma UnfinishedIsChunkFree(raws: seq<string>, text: string)
    requires forall i :: 0 <= i < |raws| ==> raws[i] <= text
    requires text == "" || text[|text| - 1] != NL
    ensures Unbroken(raws, text) && Flush(RenderAll(FRESH, raws), text) == Flush(FRESH, text)
            <==> Highlightable(text)
  {
    hide Highlightable, Flush, RenderAll, Rendered, Tracks;
    ChunkingIsIrrelevant(raws, text);
    if Rendered(raws) == |raws| {
      RenderAllTracks(raws, text);
      assert raws[..|raws|] == raws;
      LastConsumed(RenderAll(FRESH, raws), text);
    }
  }

  lemma LastConsumed(v: View, text: string)
    requires Tracks(v, text)
    ensures v.renderedLen <= |text| && (v.renderedLen > 0 ==> text[v.renderedLen - 1] == NL)
  {
  }
}
