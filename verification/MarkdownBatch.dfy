/**
 The one-shot renderer (frontend/js/messages.js:1360-1459) and its agreement with the streaming one:
 the same blocks, header cells and trailing breaks aside.
*/
module MarkdownBatch {
  import opened Text
  import opened MarkdownLines
  import opened MarkdownStream
  import CodeHighlight

  datatype CodeBlock = NoBlock | Block(lang: string, lines: seq<string>)

  /** What the loop of `formatMessage` carries: finished html, and what is still pending. */
  datatype Batch = Batch(html: seq<Block>, items: seq<string>, rows: seq<seq<string>>, hasHeader: bool, code: CodeBlock)

  const BLANK: Batch := Batch([], [], [], false, NoBlock)

  // ---- the loop as a function ---------------------------------------------------

  function FlushList(b: Batch): Batch {
    if |b.items| == 0 then b else b.(html := b.html + [List(b.items)], items := [])
  }

  /** Rows as they are printed: only the first may be a header row. */
  function PrintedRows(rows: seq<seq<string>>, hasHeader: bool): (r: seq<Row>)
    ensures |r| == |rows|
  {
    seq(|rows|, i requires 0 <= i < |rows| => Row(i == 0 && hasHeader, rows[i]))
  }

  function FlushTable(b: Batch): Batch {
    if |b.rows| == 0 then b
    else b.(html := b.html + [Table(PrintedRows(b.rows, b.hasHeader))], rows := [], hasHeader := false)
  }

  function FlushCode(b: Batch): Batch {
    if b.code.NoBlock? then b
    else b.(html := b.html + [Code(b.code.lang, Join(b.code.lines, NL))], code := NoBlock)
  }

  function Emit(b: Batch, block: Block): Batch { b.(html := b.html + [block]) }

  function BatchStep(b: Batch, line: string): Batch {
    BatchStepAs(b, line, Classify(line), ClosesCode(line))
  }

  /** The same, given what the line means outside a code block and whether it closes one. */
  function BatchStepAs(b: Batch, line: string, kind: Kind, closes: bool): Batch {
    if b.code.Block? then
      if closes then FlushCode(b)
      else b.(code := CodeBlock.Block(b.code.lang, b.code.lines + [line]))
    else match kind
      case Separator => b.(hasHeader := true)
      case TableRow(cells) =>
        var c := FlushList(b);
        c.(rows := c.rows + [cells])
      case Header(level, title) => Emit(FlushList(FlushTable(b)), Heading(level, title))
      case Fence(lang) => FlushList(FlushTable(b)).(code := CodeBlock.Block(lang, []))
      case Item(text) =>
        var c := FlushTable(b);
        c.(items := c.items + [text])
      case Blank => Emit(FlushList(FlushTable(b)), Break)
      case Plain => Emit(FlushList(FlushTable(b)), Paragraph(line))
  }

  function BatchRun(b: Batch, lines: seq<string>): Batch {
    if |lines| == 0 then b else BatchStep(BatchRun(b, lines[..|lines| - 1]), lines[|lines| - 1])
  }

  function BatchFinish(b: Batch): seq<Block> { FlushCode(FlushTable(FlushList(b))).html }

  /** `text.replace(/\n+$/, '')`. */
  function StripNewlines(s: string): (r: string)
    ensures |r| <= |s| && r == s[..|r|] && (|r| > 0 ==> r[|r| - 1] != NL)
    ensures forall i :: |r| <= i < |s| ==> s[i] == NL
  {
    if |s| > 0 && s[|s| - 1] == NL then StripNewlines(s[..|s| - 1]) else s
  }

  function BatchLanguage(b: Batch): Language { if b.code.Block? then Lang(b.code.lang) else NoCode }

  predicate BatchThrows(b: Batch, line: string) { Unfit(BatchLanguage(b)) && ClosesCode(line) }

  /** Where the loop got to, and whether an exception ended it. */
  datatype Fed = Fed(batch: Batch, thrown: bool)

  /** Lines one by one, up to the first that throws. */
  function BatchFeed(b: Batch, lines: seq<string>): Fed {
    if |lines| == 0 then Fed(b, false)
    else
      var before, line := BatchFeed(b, lines[..|lines| - 1]), lines[|lines| - 1];
      if before.thrown || BatchThrows(before.batch, line) then before.(thrown := true)
      else Fed(BatchStep(before.batch, line), false)
  }

  lemma {:induction false} BatchFeedRuns(b: Batch, lines: seq<string>)
    ensures !BatchFeed(b, lines).thrown ==> BatchFeed(b, lines).batch == BatchRun(b, lines)
  {
    if |lines| > 0 {
      BatchFeedRuns(b, lines[..|lines| - 1]);
    }
  }

  lemma {:induction false} BatchFeedStops(b: Batch, lines: seq<string>, i: nat)
    requires i <= |lines| && BatchFeed(b, lines[..i]).thrown
    ensures BatchFeed(b, lines) == BatchFeed(b, lines[..i])
  {
    if i < |lines| {
      hide BatchStep, BatchThrows;
      assert lines[..|lines| - 1][..i] == lines[..i];
      BatchFeedStops(b, lines[..|lines| - 1], i);
    } else {
      assert lines[..i] == lines;
    }
  }

  /** What `formatMessage` returns, unless an exception takes all of it. */
  datatype Formatted = Html(blocks: seq<Block>) | Failed

  function Format(text: string): Formatted {
    var fed := BatchFeed(BLANK, Split(StripNewlines(text), NL));
    if fed.thrown || Unfit(BatchLanguage(fed.batch)) then Failed else Html(BatchFinish(fed.batch))
  }

  /** The blocks of a text whose code blocks can all be highlighted. */
  function Formed(text: string): seq<Block> { BatchFinish(BatchRun(BLANK, Split(StripNewlines(text), NL))) }

  // ---- the loop as the code has it --------------------------------------------------

  method StripTrailing(text: string) returns (r: string)
    ensures r == StripNewlines(text)
  {
    r := text;
    while |r| > 0 && r[|r| - 1] == NL
      invariant StripNewlines(r) == StripNewlines(text)
      decreases |r|
    {
      r := r[..|r| - 1];
    }
  }

  method FormatLines(lines: seq<string>) returns (b: Batch, thrown: bool)
    ensures Fed(b, thrown) == BatchFeed(BLANK, lines)
  {
    hide BatchStep, BatchThrows;
    b, thrown := BLANK, false;
    for i := 0 to |lines|
      invariant Fed(b, false) == BatchFeed(BLANK, lines[..i])
    {
      b, thrown := FormatLine(b, lines[i]);
      assert lines[..i + 1][..i] == lines[..i];
      if thrown {
        BatchFeedStops(BLANK, lines, i + 1);
        return;
      }
    }
    assert lines[..|lines|] == lines;
  }

  /** `flushCodeBlock`: a block with a language is highlighted first. */
  method FlushCodeBlock(before: Batch) returns (b: Batch, thrown: bool)
    ensures thrown == Unfit(BatchLanguage(before))
    ensures b == if thrown then before else FlushCode(before)
  {
    b, thrown := before, false;
    if before.code.Block? {
      var code := Join(before.code.lines, NL);
      if before.code.lang != "" {
        var highlighted := CodeHighlight.HighlightCode(code, before.code.lang);
        if highlighted.TypeError? { return before, true; }
      } else {
        assert CodeHighlight.Lower("") == "";
      }
      b := b.(html := b.html + [Code(before.code.lang, code)], code := NoBlock);
    }
  }

  /** `OSA.formatMessage`. */
  method FormatMessage(text: string) returns (formatted: Formatted)
    ensures formatted == Format(text)
  {
    hide BatchFeed, Unfit;
    var body := StripTrailing(text);
    var b, thrown := FormatLines(Split(body, NL));
    if thrown { return Failed; }
    b := FlushList(b);
    b := FlushTable(b);
    b, thrown := FlushCodeBlock(b);
    return if thrown then Failed else Html(b.html);
  }

  /** The loop body, `continue` for `continue`; the three flushes are the closures of the code. */
  method FormatLine(before: Batch, line: string) returns (b: Batch, thrown: bool)
    ensures thrown == BatchThrows(before, line)
    ensures b == if thrown then before else BatchStep(before, line)
  {
    hide Unfit;
    thrown := false;
    var trimmed := Trim(line);
    if before.code.Block? {
      if trimmed == FENCE {
        b, thrown := FlushCodeBlock(before);
      } else {
        b := before.(code := CodeBlock.Block(before.code.lang, before.code.lines + [line]));
      }
      return;
    }
    NoneUnfit();
    if IsTableRow(trimmed) {
      if IsTableSeparator(trimmed) {
        b := before.(hasHeader := true);
        return;
      }
      assert Classify(line) == TableRow(TableCells(trimmed));
      b := FlushList(before);
      b := b.(rows := b.rows + [TableCells(trimmed)]);
      return;
    }
    b := FormatOther(FlushTable(before), line, trimmed, Classify(line));
    FlushTableTwice(before);
  }

  /** `flushTable` has nothing to do the second time, so flushing first changes no later line. */
  lemma FlushTableTwice(b: Batch)
    ensures FlushTable(FlushTable(b)) == FlushTable(b)
  {
  }

  /** The tests behind the table rows; `kind` is what they add up to. */
  method FormatOther(before: Batch, line: string, trimmed: string, ghost kind: Kind) returns (b: Batch)
    requires before.code.NoBlock? && trimmed == Trim(line) && !IsTableRow(trimmed) && |before.rows| == 0
    requires kind == Classify(line)
    ensures b == BatchStepAs(before, line, kind, ClosesCode(line))
  {
    if IsHeader(trimmed) {
      var title := trimmed[HeaderLevel(trimmed) + 1..];
      assert kind == Header(HeaderLevel(trimmed), title);
      b := FlushList(before);
      b := Emit(b, Heading(HeaderLevel(trimmed), title));
      return;
    }
    if IsFence(trimmed) {
      assert kind == Fence(trimmed[3..]);
      b := FlushList(before);
      b := b.(code := CodeBlock.Block(trimmed[3..], []));
      return;
    }
    if "- " <= trimmed {
      assert kind == Item(trimmed[2..]);
      b := before.(items := before.items + [trimmed[2..]]);
      return;
    }
    if IsNumbered(trimmed) {
      assert kind == Item(NumberedText(trimmed));
      b := before.(items := before.items + [NumberedText(trimmed)]);
      return;
    }
    assert kind == if |trimmed| == 0 then Blank else Plain;
    b := FlushList(before);
    b := Emit(b, if |trimmed| == 0 then Break else Paragraph(line));
  }

  // ---- agreement ---------------------------------------------------------------------------

  /** The rows of a table without the choice between `th` and `td`. */
  function Cells(rows: seq<Row>): (r: seq<seq<string>>)
    ensures |r| == |rows|
  {
    seq(|rows|, i requires 0 <= i < |rows| => rows[i].cells)
  }

  function PlainRows(rows: seq<seq<string>>): seq<Row> { PrintedRows(rows, false) }

  function EraseBlock(b: Block): Block {
    if b.Table? then Table(PlainRows(Cells(b.rows))) else b
  }

  function Erase(blocks: seq<Block>): (r: seq<Block>)
    ensures |r| == |blocks|
  {
    seq(|blocks|, i requires 0 <= i < |blocks| => EraseBlock(blocks[i]))
  }

  /** What the batch machine will still print. */
  function PendingBlocks(b: Batch): seq<Block> {
    if b.code.Block? then [Code(b.code.lang, Join(b.code.lines, NL))]
    else if |b.items| > 0 then [List(b.items)]
    else if |b.rows| > 0 then [Table(PlainRows(b.rows))]
    else []
  }

  /** What is pending in the batch machine is what is open in the streaming one. */
  function OpenOf(b: Batch): Open {
    if b.code.Block? then InCode(|b.code.lines| == 0)
    else if |b.items| > 0 then InList
    else if |b.rows| > 0 then InTable
    else Closed
  }

  /** Never more than one of code, list and table rows is pending. */
  predicate OnePending(b: Batch) {
    && (b.code.Block? ==> |b.items| == 0 && |b.rows| == 0)
    && (|b.items| == 0 || |b.rows| == 0)
  }

  predicate Agree(b: Batch, md: Md) {
    && OnePending(b)
    && md.open == OpenOf(b)
    && Erase(md.blocks) == Erase(b.html) + PendingBlocks(b)
  }

  lemma ErasePlus(a: seq<Block>, b: seq<Block>)
    ensures Erase(a + b) == Erase(a) + Erase(b)
  {
  }

  lemma EraseOne(b: Block)
    ensures Erase([b]) == [EraseBlock(b)]
  {
  }

  lemma ErasePrinted(rows: seq<seq<string>>, hasHeader: bool)
    ensures EraseBlock(Table(PrintedRows(rows, hasHeader))) == Table(PlainRows(rows))
  {
    assert Cells(PrintedRows(rows, hasHeader)) == rows;
  }

  /** Flushing what is pending prints it. */
  lemma FlushedHtml(b: Batch)
    requires OnePending(b)
    ensures var c := FlushList(FlushTable(b));
            b.code.NoBlock? ==> Erase(c.html) == Erase(b.html) + PendingBlocks(b)
                                && |c.items| == 0 && |c.rows| == 0 && c.code == b.code
    ensures Erase(BatchFinish(b)) == Erase(b.html) + PendingBlocks(b)
  {
    if b.code.Block? {
      ErasePlus(b.html, PendingBlocks(b));
      EraseOne(PendingBlocks(b)[0]);
    } else if |b.items| > 0 {
      ErasePlus(b.html, [List(b.items)]);
      EraseOne(List(b.items));
    } else if |b.rows| > 0 {
      var table := Table(PrintedRows(b.rows, b.hasHeader));
      ErasePlus(b.html, [table]);
      EraseOne(table);
      ErasePrinted(b.rows, b.hasHeader);
    }
  }

  lemma {:induction false} JoinSnoc(lines: seq<string>, line: string)
    ensures Join(lines + [line], NL) == Join(lines, NL) + (if |lines| == 0 then "" else [NL]) + line
  {
    if |lines| == 0 {
      assert [] + [line] == [line];
    } else if |lines| == 1 {
      assert (lines + [line])[1..] == [line];
    } else {
      assert (lines + [line])[1..] == lines[1..] + [line];
      JoinSnoc(lines[1..], line);
    }
  }

  /** Replacing the open last block replaces the pending one. */
  lemma ReplaceAgrees(b: Batch, md: Md, block: Block)
    requires Agree(b, md) && |md.blocks| > 0 && |PendingBlocks(b)| == 1
    ensures Erase(ReplaceLast(md, block)) == Erase(b.html) + [EraseBlock(block)]
    ensures EraseBlock(LastBlock(md)) == PendingBlocks(b)[0]
  {
    var init := md.blocks[..|md.blocks| - 1];
    assert md.blocks == init + [LastBlock(md)];
    ErasePlus(init, [LastBlock(md)]);
    EraseOne(LastBlock(md));
    ErasePlus(init, [block]);
    EraseOne(block);
    assert PendingBlocks(b) == [PendingBlocks(b)[0]];
    SnocInjective(Erase(init), EraseBlock(LastBlock(md)), Erase(b.html), PendingBlocks(b)[0]);
  }

  lemma SnocInjective<T>(a: seq<T>, x: T, b: seq<T>, y: T)
    ensures a + [x] == b + [y] <==> a == b && x == y
  {
    if a + [x] == b + [y] {
      assert (a + [x])[..|a|] == a && (b + [y])[..|b|] == b;
      assert (a + [x])[|a|] == x && (b + [y])[|b|] == y;
    }
  }

  lemma AppendAgrees(b: Batch, md: Md, block: Block)
    requires Agree(b, md) && b.code.NoBlock?
    ensures Erase(md.blocks + [block]) == Erase(Emit(FlushList(FlushTable(b)), block).html)
  {
    FlushedHtml(b);
    ErasePlus(md.blocks, [block]);
    ErasePlus(FlushList(FlushTable(b)).html, [block]);
  }

  lemma CodeStepAgrees(b: Batch, md: Md, line: string, kind: Kind, closes: bool)
    requires WellFormed(md) && Agree(b, md) && b.code.Block?
    ensures Agree(BatchStepAs(b, line, kind, closes), StepAs(md, line, kind, closes))
  {
    if closes {
      FlushedHtml(b);
    } else {
      var code := LastBlock(md);
      var c := BatchStepAs(b, line, kind, closes);
      ReplaceAgrees(b, md, Code(code.lang, code.text + (if md.open.first then "" else [NL]) + line));
      JoinSnoc(b.code.lines, line);
    }
  }

  lemma RowStepAgrees(b: Batch, md: Md, line: string, kind: Kind, closes: bool)
    requires WellFormed(md) && Agree(b, md) && b.code.NoBlock? && kind.TableRow?
    ensures Agree(BatchStepAs(b, line, kind, closes), StepAs(md, line, kind, closes))
  {
    var cells := kind.cells;
    if md.open.InTable? {
      var table := Table(LastBlock(md).rows + [Row(false, cells)]);
      ReplaceAgrees(b, md, table);
      assert Cells(LastBlock(md).rows + [Row(false, cells)]) == Cells(LastBlock(md).rows) + [cells];
      SameCells(LastBlock(md).rows, b.rows);
    } else {
      AppendAgrees(b, md, Table([Row(md.header, cells)]));
      FlushedHtml(b);
      ErasePlus(md.blocks, [Table([Row(md.header, cells)])]);
      EraseOne(Table([Row(md.header, cells)]));
      assert Cells([Row(md.header, cells)]) == [cells] && [] + [cells] == [cells];
    }
  }

  lemma SameCells(rows: seq<Row>, cells: seq<seq<string>>)
    requires PlainRows(Cells(rows)) == PlainRows(cells)
    ensures Cells(rows) == cells
  {
    assert |PlainRows(Cells(rows))| == |rows| && |PlainRows(cells)| == |cells|;
    forall i | 0 <= i < |cells| ensures Cells(rows)[i] == cells[i] {
      assert PlainRows(Cells(rows))[i] == PlainRows(cells)[i];
    }
  }

  lemma NextItemAgrees(b: Batch, md: Md, line: string, kind: Kind, closes: bool)
    requires WellFormed(md) && Agree(b, md) && b.code.NoBlock? && kind.Item? && |b.items| > 0
    ensures Agree(BatchStepAs(b, line, kind, closes), StepAs(md, line, kind, closes))
  {
    ReplaceAgrees(b, md, List(LastBlock(md).items + [kind.text]));
  }

  lemma FirstItemAgrees(b: Batch, md: Md, line: string, kind: Kind, closes: bool)
    requires WellFormed(md) && Agree(b, md) && b.code.NoBlock? && kind.Item? && |b.items| == 0
    ensures Agree(BatchStepAs(b, line, kind, closes), StepAs(md, line, kind, closes))
  {
    var list := List([kind.text]);
    FlushedHtml(b);
    ErasePlus(md.blocks, [list]);
    EraseOne(list);
    assert b.items + [kind.text] == [kind.text];
  }

  lemma ItemStepAgrees(b: Batch, md: Md, line: string, kind: Kind, closes: bool)
    requires WellFormed(md) && Agree(b, md) && b.code.NoBlock? && kind.Item?
    ensures Agree(BatchStepAs(b, line, kind, closes), StepAs(md, line, kind, closes))
  {
    if |b.items| > 0 {
      NextItemAgrees(b, md, line, kind, closes);
    } else {
      FirstItemAgrees(b, md, line, kind, closes);
    }
  }

  lemma BlockStepAgrees(b: Batch, md: Md, line: string, kind: Kind, closes: bool)
    requires WellFormed(md) && Agree(b, md) && b.code.NoBlock?
    requires !kind.TableRow? && !kind.Item?
    ensures Agree(BatchStepAs(b, line, kind, closes), StepAs(md, line, kind, closes))
  {
    FlushedHtml(b);
    match kind
    case Separator =>
    case Header(level, title) => AppendAgrees(b, md, Heading(level, title));
    case Fence(lang) =>
      ErasePlus(md.blocks, [Code(lang, "")]);
      EraseOne(Code(lang, ""));
    case Blank => AppendAgrees(b, md, Break);
    case Plain => AppendAgrees(b, md, Paragraph(line));
  }

  /** Agreeing machines are in a code block of the same language. */
  lemma LanguagesAgree(b: Batch, md: Md)
    requires WellFormed(md) && Agree(b, md)
    ensures BatchLanguage(b) == LanguageOf(md)
  {
    if b.code.Block? { ReplaceAgrees(b, md, Break); }
  }

  /** One line takes agreeing machines to agreeing machines, and throws in both or in neither. */
  lemma StepAgrees(b: Batch, md: Md, line: string)
    requires WellFormed(md) && Agree(b, md)
    ensures BatchThrows(b, line) == Throws(md, line)
    ensures Agree(BatchStep(b, line), Step(md, line))
  {
    LanguagesAgree(b, md);
    var kind, closes := Classify(line), ClosesCode(line);
    if b.code.Block? {
      CodeStepAgrees(b, md, line, kind, closes);
    } else if kind.TableRow? {
      RowStepAgrees(b, md, line, kind, closes);
    } else if kind.Item? {
      ItemStepAgrees(b, md, line, kind, closes);
    } else {
      BlockStepAgrees(b, md, line, kind, closes);
    }
  }

  /** Lines get as far in both machines, and as far as they get the machines agree. */
  lemma {:induction false} RunAgrees(lines: seq<string>)
    ensures Agree(BatchRun(BLANK, lines), Run(START, lines))
    ensures var fed, reached := BatchFeed(BLANK, lines), Feed(START, lines);
            fed.thrown == reached.thrown && Agree(fed.batch, reached.md)
  {
    if |lines| > 0 {
      hide BatchStep, Step, Agree, BatchThrows, Throws, WellFormed;
      var init, line := lines[..|lines| - 1], lines[|lines| - 1];
      RunAgrees(init);
      StepAgrees(BatchRun(BLANK, init), Run(START, init), line);
      StepAgrees(BatchFeed(BLANK, init).batch, Feed(START, init).md, line);
    }
  }

  // ---- the theorem ----------------------------------------------------------------------------

  lemma {:induction false} EraseStrip(blocks: seq<Block>)
    ensures Erase(StripBreaks(blocks)) == StripBreaks(Erase(blocks))
  {
    if |blocks| > 0 {
      var init := blocks[..|blocks| - 1];
      assert Erase(blocks)[..|blocks| - 1] == Erase(init);
      assert Erase(blocks)[|blocks| - 1].Break? <==> blocks[|blocks| - 1].Break?;
      EraseStrip(init);
    }
  }

  /** `k` empty lines behind a text that does not end one. */
  function Newlines(k: nat): (s: string)
    ensures |s| == k && forall i :: 0 <= i < k ==> s[i] == NL
  {
    seq(k, i => NL)
  }

  function EmptyLines(k: nat): (lines: seq<string>)
    ensures |lines| == k
  {
    seq(k, i => "")
  }

  lemma {:induction false} SplitWithNewlines(s: string, k: nat)
    ensures Split(s + Newlines(k), NL) == Split(s, NL) + EmptyLines(k)
  {
    if k == 0 {
      assert s + Newlines(0) == s;
    } else {
      SplitWithNewlines(s, k - 1);
      assert s + Newlines(k) == (s + Newlines(k - 1)) + [NL] + "";
      SplitConcat(s + Newlines(k - 1), "", NL);
      assert EmptyLines(k) == EmptyLines(k - 1) + [""];
    }
  }

  lemma StripSplits(text: string)
    ensures text == StripNewlines(text) + Newlines(|text| - |StripNewlines(text)|)
  {
  }

  /** One empty line in a code block: one newline more, unless it is the block's first line. */
  lemma EmptyLineInCode(md: Md)
    requires WellFormed(md) && md.open.InCode?
    ensures var r := Step(md, "");
            && r.open == InCode(false) && |r.blocks| == |md.blocks|
            && |LastBlock(r).text| == |LastBlock(md).text| + if md.open.first then 0 else 1
  {
    EmptyLineInside(md);
  }

  lemma {:induction false} EmptyLinesInCode(md: Md, k: nat)
    requires WellFormed(md) && md.open.InCode?
    ensures var r := Run(md, EmptyLines(k));
            && r.open == InCode(md.open.first && k == 0) && |r.blocks| == |md.blocks| > 0 && LastBlock(r).Code?
            && |LastBlock(r).text| == |LastBlock(md).text| + k - (if md.open.first && k > 0 then 1 else 0)
            && (k == 0 || (md.open.first && k == 1) ==> r.blocks == md.blocks)
  {
    if k > 0 {
      assert EmptyLines(k)[..k - 1] == EmptyLines(k - 1);
      EmptyLinesInCode(md, k - 1);
      var before := Run(md, EmptyLines(k - 1));
      EmptyLineInCode(before);
      if md.open.first && k == 1 {
        EmptyFirstLine(md);
      }
    }
  }

  lemma EmptyFirstLine(md: Md)
    requires WellFormed(md) && md.open == InCode(true)
    ensures Step(md, "").blocks == md.blocks
  {
    EmptyLineInside(md);
    var code := LastBlock(md);
    assert code.text + "" == code.text;
    assert md.blocks == ReplaceLast(md, code);
  }

  lemma {:induction false} EmptyLinesElsewhere(md: Md, k: nat)
    requires WellFormed(md) && !md.open.InCode?
    ensures var r := Run(md, EmptyLines(k));
            !r.open.InCode? && StripBreaks(r.blocks) == StripBreaks(md.blocks)
  {
    if k > 0 {
      assert EmptyLines(k)[..k - 1] == EmptyLines(k - 1);
      EmptyLinesElsewhere(md, k - 1);
      EmptyLineOutside(Run(md, EmptyLines(k - 1)));
    }
  }

  /** Empty lines close no code block and open none. */
  lemma {:induction false} EmptyLinesFit(lines: seq<string>, k: nat)
    ensures NoneClosed(lines + EmptyLines(k)) <==> NoneClosed(lines)
    ensures LanguageAfter(lines + EmptyLines(k)) == LanguageAfter(lines)
  {
    hide NoneClosed, Classify, ClosesCode;
    if k == 0 {
      assert lines + EmptyLines(0) == lines;
    } else {
      EmptyLinesFit(lines, k - 1);
      var before := lines + EmptyLines(k - 1);
      assert EmptyLines(k) == EmptyLines(k - 1) + [""] && lines + EmptyLines(k) == before + [""];
      assert (before + [""])[..|before|] == before;
      EmptyLineIsBlank();
      ClosedSnoc(before, "");
    }
  }

  /** `formatMessage` returns something exactly when every code block can be highlighted, as a flush gets through. */
  lemma FormatGetsThrough(text: string)
    ensures Format(text).Failed? <==> !Highlightable(text)
    ensures Format(text).Failed? <==> Flush(FRESH, text).thrown
    ensures Highlightable(text) ==> Format(text) == Html(Formed(text))
  {
    hide Split, BatchFeed, BatchRun, Feed, Run, Unfit, Agree, NoneClosed, LanguageAfter, BatchFinish, Flush, LanguageOf;
    var body := StripNewlines(text);
    var lines := Split(body, NL);
    StripSplits(text);
    SplitWithNewlines(body, |text| - |body|);
    EmptyLinesFit(lines, |text| - |body|);
    RunAgrees(lines);
    BatchFeedRuns(BLANK, lines);
    LanguagesAgree(BatchFeed(BLANK, lines).batch, Feed(START, lines).md);
    FeedThrows(lines);
    FeedRuns(START, lines);
    RunLanguage(lines);
    FlushFresh(text);
  }

  /**
   Rendering a text by streaming and by `formatMessage` gives the same blocks, header cells aside and
   with the batch output's trailing breaks removed, exactly when every code block can be highlighted and
   no newlines trail behind an open one, other than a single one directly behind its opening fence.
  */
  lemma StreamingEqualsBatch(text: string)
    ensures var body := StripNewlines(text);
            var md, k := Run(START, Split(body, NL)), |text| - |body|;
            var flushed, formatted := Flush(FRESH, text), Format(text);
            !flushed.thrown && formatted.Html? && Erase(flushed.blocks) == StripBreaks(Erase(formatted.blocks))
            <==> Highlightable(text) && (k == 0 || !md.open.InCode? || (md.open.first && k == 1))
  {
    hide Split, Run, Flush, Format, Highlightable, Erase, StripBreaks, Styled, Formed;
    FlushFresh(text);
    FormatGetsThrough(text);
    StyledEqualsFormed(text);
  }

  /** Where nothing throws. */
  lemma StyledEqualsFormed(text: string)
    ensures var body := StripNewlines(text);
            var md, k := Run(START, Split(body, NL)), |text| - |body|;
            Erase(Styled(text)) == StripBreaks(Erase(Formed(text)))
            <==> k == 0 || !md.open.InCode? || (md.open.first && k == 1)
  {
    hide Step, Classify, ClosesCode, Split, Run;
    var body := StripNewlines(text);
    var k := |text| - |body|;
    var md := Run(START, Split(body, NL));
    StyledStripped(text, body, k);
    TrailingEmptyLines(md, k);
    FormatStripped(body);
  }

  /** The streaming side: the stripped text's lines, then the empty ones. */
  lemma StyledStripped(text: string, body: string, k: nat)
    requires body == StripNewlines(text) && k == |text| - |body|
    ensures Styled(text) == StripBreaks(Run(Run(START, Split(body, NL)), EmptyLines(k)).blocks)
  {
    hide Step;
    StripSplits(text);
    SplitWithNewlines(body, k);
    RunAppend(START, Split(body, NL), EmptyLines(k));
  }

  /** The batch side, with its trailing breaks removed. */
  lemma {:induction false} FormatStripped(body: string)
    ensures Erase(StripBreaks(Run(START, Split(body, NL)).blocks))
         == StripBreaks(Erase(BatchFinish(BatchRun(BLANK, Split(body, NL)))))
  {
    var lines := Split(body, NL);
    RunAgrees(lines);
    FlushedHtml(BatchRun(BLANK, lines));
    EraseStrip(Run(START, lines).blocks);
  }

  /** `k` trailing empty lines change the finished blocks, erased or not, just when they land in code. */
  lemma TrailingEmptyLines(md: Md, k: nat)
    requires WellFormed(md)
    ensures var r := Run(md, EmptyLines(k));
            Erase(StripBreaks(r.blocks)) == Erase(StripBreaks(md.blocks))
            <==> k == 0 || !md.open.InCode? || (md.open.first && k == 1)
  {
    hide Step;
    var r := Run(md, EmptyLines(k));
    if md.open.InCode? {
      EmptyLinesInCode(md, k);
      NotBreakKept(md.blocks);
      NotBreakKept(r.blocks);
      assert Erase(r.blocks)[|r.blocks| - 1] == LastBlock(r);
      assert Erase(md.blocks)[|md.blocks| - 1] == LastBlock(md);
    } else {
      EmptyLinesElsewhere(md, k);
    }
  }

  /** The condition of the theorem, for texts that end in an ordinary line. */
  lemma {:induction false} OrdinaryEnd(text: string)
    requires |text| > 0 && text[|text| - 1] != NL
    requires var lines := Split(text, NL);
             var kind := Classify(lines[|lines| - 1]);
             !kind.Blank? && !kind.Separator?
    ensures var flushed, formatted := Flush(FRESH, text), Format(text);
            !flushed.thrown && formatted.Html? && Erase(flushed.blocks) == Erase(formatted.blocks)
            <==> Highlightable(text)
  {
    hide Step, Classify, Split, Run, Flush, Format, Highlightable, Erase, StripBreaks, BatchRun;
    StripNewlinesId(text);
    StreamingEqualsBatch(text);
    FormatGetsThrough(text);
    NoTrailingBreak(Split(text, NL));
  }

  lemma {:induction false} NoTrailingBreak(lines: seq<string>)
    requires |lines| > 0
    requires !Classify(lines[|lines| - 1]).Blank? && !Classify(lines[|lines| - 1]).Separator?
    ensures var html := Erase(BatchFinish(BatchRun(BLANK, lines))); StripBreaks(html) == html
  {
    RunAgrees(lines);
    var b, md := BatchRun(BLANK, lines), Run(START, lines);
    FlushedHtml(b);
    LastLineShows(Run(START, lines[..|lines| - 1]), lines[|lines| - 1]);
    ErasedLast(md.blocks);
    NotBreakKept(Erase(md.blocks));
  }

  lemma StripNewlinesId(text: string)
    requires |text| > 0 && text[|text| - 1] != NL
    ensures StripNewlines(text) == text
  {
  }

  lemma LastLineShows(md: Md, line: string)
    requires WellFormed(md) && !Classify(line).Blank? && !Classify(line).Separator?
    ensures |Step(md, line).blocks| > 0 && !LastBlock(Step(md, line)).Break?
  {
    LastLineShowsAs(md, line, Classify(line), ClosesCode(line));
  }

  lemma LastLineShowsAs(md: Md, line: string, kind: Kind, closes: bool)
    requires WellFormed(md) && !kind.Blank? && !kind.Separator?
    ensures var r := StepAs(md, line, kind, closes);
            |r.blocks| > 0 && !LastBlock(r).Break?
  {
  }

  lemma ErasedLast(blocks: seq<Block>)
    requires |blocks| > 0
    ensures Erase(blocks)[|blocks| - 1].Break? <==> blocks[|blocks| - 1].Break?
  {
  }

  /**
   Both together: any prefixes of an ordinary text may be streamed, and the flushed blocks are those
   of `formatMessage`, header cells aside, exactly when every code block can be highlighted.
  */
  lemma StreamedEqualsFormatted(raws: seq<string>, text: string)
    requires forall i :: 0 <= i < |raws| ==> raws[i] <= text
    requires |text| > 0 && text[|text| - 1] != NL
    requires var lines := Split(text, NL);
             var kind := Classify(lines[|lines| - 1]);
             !kind.Blank? && !kind.Separator?
    ensures var flushed, formatted := Flush(RenderAll(FRESH, raws), text), Format(text);
            Unbroken(raws, text) && formatted.Html? && Erase(flushed.blocks) == Erase(formatted.blocks)
            <==> Highlightable(text)
  {
    hide Classify, Split, Flush, Format, Highlightable, Erase, RenderAll, Unbroken;
    UnfinishedIsChunkFree(raws, text);
    ChunkingIsIrrelevant(raws, text);
    OrdinaryEnd(text);
  }
}
