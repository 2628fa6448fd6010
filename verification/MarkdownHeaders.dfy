/**
 Header cells (frontend/js/messages.js:1380-1391, 1428-1438, 1497-1516, 1567-1594). Both renderers make the
 first row of a table a header row on account of a separator line, but not of the same ones: the streaming
 one of any separator before the row, the one-shot one of any since the previous table ended, up to the end
 of this one. With that the two agree cell by cell, or the exact condition says why not.
*/
module MarkdownHeaders {
  import opened Text
  import opened MarkdownLines
  import opened MarkdownStream
  import opened MarkdownBatch

  // ---- separators and tables, line by line ------------------------------------------------------

  /** Of one table: a separator came before its first row; one came between the previous table's end and its own. */
  datatype TableInfo = TableInfo(before: bool, around: bool)

  datatype Survey = Survey(inCode: bool, inTable: bool, ever: bool, recent: bool, tables: seq<TableInfo>)

  const NO_LINES: Survey := Survey(false, false, false, false, [])

  /** A line that is no table row ends a table. */
  function Outside(s: Survey): Survey {
    if s.inTable then s.(inTable := false, recent := false) else s
  }

  function WithAround(tables: seq<TableInfo>): seq<TableInfo>
    requires |tables| > 0
  {
    tables[..|tables| - 1] + [tables[|tables| - 1].(around := true)]
  }

  function LookAt(s: Survey, kind: Kind, closes: bool): Survey {
    if s.inCode then s.(inCode := !closes)
    else match kind
      case Separator =>
        s.(ever := true, recent := true,
           tables := if s.inTable && |s.tables| > 0 then WithAround(s.tables) else s.tables)
      case TableRow(_) =>
        if s.inTable then s else s.(inTable := true, tables := s.tables + [TableInfo(s.ever, s.recent)])
      case Fence(_) => Outside(s).(inCode := true)
      case _ => Outside(s)
  }

  function LookThrough(lines: seq<string>): Survey {
    if |lines| == 0 then NO_LINES
    else
      var line := lines[|lines| - 1];
      LookAt(LookThrough(lines[..|lines| - 1]), Classify(line), ClosesCode(line))
  }

  /** Every table has a separator before it exactly when one falls between the previous table's end and its own. */
  predicate HeadersAgree(lines: seq<string>) {
    var tables := LookThrough(lines).tables;
    forall i :: 0 <= i < |tables| ==> tables[i].before == tables[i].around
  }

  function Befores(tables: seq<TableInfo>): (r: seq<bool>)
    ensures |r| == |tables|
  {
    seq(|tables|, i requires 0 <= i < |tables| => tables[i].before)
  }

  function Arounds(tables: seq<TableInfo>): (r: seq<bool>)
    ensures |r| == |tables|
  {
    seq(|tables|, i requires 0 <= i < |tables| => tables[i].around)
  }

  // ---- header rows of rendered blocks ---------------------------------------------------------------

  function Flag(b: Block): seq<bool> {
    if b.Table? && |b.rows| > 0 then [b.rows[0].header] else []
  }

  /** Whether the first row of each table is a header row. */
  function Flags(blocks: seq<Block>): seq<bool> {
    if |blocks| == 0 then [] else Flags(blocks[..|blocks| - 1]) + Flag(blocks[|blocks| - 1])
  }

  /** No other row is. */
  ghost predicate FirstOnly(b: Block) {
    b.Table? ==> |b.rows| > 0 && forall i :: 0 < i < |b.rows| ==> !b.rows[i].header
  }

  ghost predicate AllFirstOnly(blocks: seq<Block>) {
    forall i :: 0 <= i < |blocks| ==> FirstOnly(blocks[i])
  }

  lemma FlagsSnoc(blocks: seq<Block>, b: Block)
    ensures Flags(blocks + [b]) == Flags(blocks) + Flag(b)
    ensures AllFirstOnly(blocks + [b]) <==> AllFirstOnly(blocks) && FirstOnly(b)
  {
    assert (blocks + [b])[..|blocks|] == blocks;
    if AllFirstOnly(blocks + [b]) {
      assert FirstOnly((blocks + [b])[|blocks|]);
      forall i | 0 <= i < |blocks| ensures FirstOnly(blocks[i]) { assert FirstOnly((blocks + [b])[i]); }
    }
  }

  /** Blocks that agree up to header cells, and on each table's first row, are the same. */
  lemma SameBlock(a: Block, b: Block)
    requires FirstOnly(a) && FirstOnly(b) && EraseBlock(a) == EraseBlock(b) && Flag(a) == Flag(b)
    ensures a == b
  {
    if a.Table? {
      SameCells(a.rows, Cells(b.rows));
      assert |a.rows| == |Cells(a.rows)| == |Cells(b.rows)| == |b.rows|;
      forall i | 0 <= i < |a.rows| ensures a.rows[i] == b.rows[i] {
        assert Cells(a.rows)[i] == Cells(b.rows)[i];
      }
    }
  }

  lemma FlagOfErased(a: Block, b: Block)
    requires FirstOnly(a) && FirstOnly(b) && EraseBlock(a) == EraseBlock(b)
    ensures |Flag(a)| == |Flag(b)|
  {
  }

  lemma {:induction false} SameBlocks(a: seq<Block>, b: seq<Block>)
    requires AllFirstOnly(a) && AllFirstOnly(b) && Erase(a) == Erase(b) && Flags(a) == Flags(b)
    ensures a == b
  {
    hide FirstOnly, EraseBlock, Flag;
    assert |a| == |Erase(a)| == |Erase(b)| == |b|;
    if |a| > 0 {
      var x, y := a[|a| - 1], b[|b| - 1];
      assert EraseBlock(x) == Erase(a)[|a| - 1] == Erase(b)[|b| - 1] == EraseBlock(y);
      FlagOfErased(x, y);
      SplitEqual(Flags(a[..|a| - 1]), Flag(x), Flags(b[..|b| - 1]), Flag(y));
      ErasePrefix(a, |a| - 1);
      ErasePrefix(b, |b| - 1);
      SameBlocks(a[..|a| - 1], b[..|b| - 1]);
      SameBlock(x, y);
      assert a == a[..|a| - 1] + [x] && b == b[..|b| - 1] + [y];
    }
  }

  lemma ErasePrefix(blocks: seq<Block>, n: nat)
    requires n <= |blocks|
    ensures Erase(blocks[..n]) == Erase(blocks)[..n]
  {
  }

  lemma SplitEqual<T>(a: seq<T>, x: seq<T>, b: seq<T>, y: seq<T>)
    requires a + x == b + y && |x| == |y|
    ensures a == b && x == y
  {
    assert |a| == |b|;
    assert (a + x)[..|a|] == a && (b + y)[..|b|] == b;
    assert (a + x)[|a|..] == x && (b + y)[|b|..] == y;
  }

  // ---- both machines against the survey ----------------------------------------------------------------

  ghost predicate MdTracks(md: Md, s: Survey) {
    && (s.inCode <==> md.open.InCode?) && (s.inTable <==> md.open.InTable?) && md.header == s.ever
    && AllFirstOnly(md.blocks) && Flags(md.blocks) == Befores(s.tables)
  }

  ghost predicate BatchTracks(b: Batch, s: Survey) {
    && OnePending(b)
    && (s.inCode <==> b.code.Block?) && (s.inTable <==> |b.rows| > 0) && b.hasHeader == s.recent
    && AllFirstOnly(b.html)
    && Flags(b.html) + (if |b.rows| > 0 then [b.hasHeader] else []) == Arounds(s.tables)
  }

  lemma ReplaceFlags(md: Md, block: Block)
    requires |md.blocks| > 0 && AllFirstOnly(md.blocks) && FirstOnly(block) && Flag(block) == Flag(LastBlock(md))
    ensures Flags(ReplaceLast(md, block)) == Flags(md.blocks) && AllFirstOnly(ReplaceLast(md, block))
  {
    var init := md.blocks[..|md.blocks| - 1];
    assert md.blocks == init + [LastBlock(md)];
    FlagsSnoc(init, LastBlock(md));
    FlagsSnoc(init, block);
  }

  lemma AppendFlags(md: Md, block: Block)
    requires AllFirstOnly(md.blocks) && FirstOnly(block)
    ensures Flags(md.blocks + [block]) == Flags(md.blocks) + Flag(block) && AllFirstOnly(md.blocks + [block])
  {
    FlagsSnoc(md.blocks, block);
  }

  lemma BeforesAround(tables: seq<TableInfo>)
    requires |tables| > 0
    ensures Befores(WithAround(tables)) == Befores(tables)
    ensures Arounds(WithAround(tables)) == Arounds(tables)[..|tables| - 1] + [true]
  {
  }

  lemma InfoSnoc(tables: seq<TableInfo>, t: TableInfo)
    ensures Befores(tables + [t]) == Befores(tables) + [t.before]
    ensures Arounds(tables + [t]) == Arounds(tables) + [t.around]
  {
  }

  lemma MdStepTracks(md: Md, s: Survey, line: string, kind: Kind, closes: bool)
    requires WellFormed(md) && MdTracks(md, s)
    ensures MdTracks(StepAs(md, line, kind, closes), LookAt(s, kind, closes))
  {
    hide Flags, AllFirstOnly;
    if md.open.InCode? {
      if !closes {
        var code := LastBlock(md);
        ReplaceFlags(md, Code(code.lang, code.text + (if md.open.first then "" else [NL]) + line));
      }
    } else {
      match kind
      case Separator => if s.inTable && |s.tables| > 0 { BeforesAround(s.tables); }
      case TableRow(cells) =>
        if md.open.InTable? {
          OpenTable(md);
          ReplaceFlags(md, Table(LastBlock(md).rows + [Row(false, cells)]));
        } else {
          AppendFlags(md, Table([Row(md.header, cells)]));
          InfoSnoc(s.tables, TableInfo(s.ever, s.recent));
        }
      case Header(level, title) => AppendFlags(md, Heading(level, title));
      case Fence(lang) => AppendFlags(md, Code(lang, ""));
      case Item(text) =>
        if md.open.InList? { ReplaceFlags(md, List(LastBlock(md).items + [text])); }
        else { AppendFlags(md, List([text])); }
      case Blank => AppendFlags(md, Break);
      case Plain => AppendFlags(md, Paragraph(line));
    }
  }

  lemma OpenTable(md: Md)
    requires WellFormed(md) && md.open.InTable? && AllFirstOnly(md.blocks)
    ensures FirstOnly(LastBlock(md))
  {
  }

  // ---- flushes of the batch machine

  lemma FlushTableFlags(b: Batch, s: Survey)
    requires BatchTracks(b, s) && !s.inCode
    ensures BatchTracks(FlushTable(b), Outside(s)) && |FlushTable(b).rows| == 0
  {
    if |b.rows| > 0 {
      FlagsSnoc(b.html, Table(PrintedRows(b.rows, b.hasHeader)));
    }
  }

  lemma FlushListFlags(b: Batch, s: Survey)
    requires BatchTracks(b, s) && !s.inCode
    ensures BatchTracks(FlushList(b), s) && |FlushList(b).items| == 0
  {
    if |b.items| > 0 {
      FlagsSnoc(b.html, List(b.items));
      assert Flags(b.html) + Flag(List(b.items)) == Flags(b.html);
    }
  }

  lemma EmitFlags(b: Batch, s: Survey, block: Block)
    requires BatchTracks(b, s) && !block.Table?
    ensures BatchTracks(Emit(b, block), s)
  {
    FlagsSnoc(b.html, block);
    assert Flags(b.html) + Flag(block) == Flags(b.html);
  }

  lemma BatchStepTracks(b: Batch, s: Survey, line: string, kind: Kind, closes: bool)
    requires BatchTracks(b, s)
    ensures BatchTracks(BatchStepAs(b, line, kind, closes), LookAt(s, kind, closes))
  {
    hide Flags, AllFirstOnly;
    if b.code.Block? {
      if closes { EmitFlags(b, s, Code(b.code.lang, Join(b.code.lines, NL))); }
    } else {
      match kind
      case Separator =>
        if s.inTable {
          BeforesAround(s.tables);
          assert (Flags(b.html) + [b.hasHeader])[..|Flags(b.html)|] == Flags(b.html);
        }
      case TableRow(cells) =>
        FlushListFlags(b, s);
        InfoSnoc(s.tables, TableInfo(s.ever, s.recent));
        assert Flags(FlushList(b).html) + [] == Flags(FlushList(b).html);
      case Fence(lang) =>
        FlushTableFlags(b, s);
        FlushListFlags(FlushTable(b), Outside(s));
      case Item(text) => FlushTableFlags(b, s);
      case Header(level, title) =>
        FlushTableFlags(b, s);
        FlushListFlags(FlushTable(b), Outside(s));
        EmitFlags(FlushList(FlushTable(b)), Outside(s), Heading(level, title));
      case Blank =>
        FlushTableFlags(b, s);
        FlushListFlags(FlushTable(b), Outside(s));
        EmitFlags(FlushList(FlushTable(b)), Outside(s), Break);
      case Plain =>
        FlushTableFlags(b, s);
        FlushListFlags(FlushTable(b), Outside(s));
        EmitFlags(FlushList(FlushTable(b)), Outside(s), Paragraph(line));
    }
  }

  // ---- whole texts --------------------------------------------------------------------------------------

  lemma {:induction false} RunsTrack(lines: seq<string>)
    ensures MdTracks(Run(START, lines), LookThrough(lines)) && BatchTracks(BatchRun(BLANK, lines), LookThrough(lines))
  {
    if |lines| > 0 {
      hide MdTracks, BatchTracks, Classify, LookAt, StepAs, BatchStepAs;
      var init, line := lines[..|lines| - 1], lines[|lines| - 1];
      RunsTrack(init);
      MdStepTracks(Run(START, init), LookThrough(init), line, Classify(line), ClosesCode(line));
      BatchStepTracks(BatchRun(BLANK, init), LookThrough(init), line, Classify(line), ClosesCode(line));
    }
  }

  /** Empty lines start no table and move no separator. */
  lemma {:induction false} EmptyLinesTrack(md: Md, s: Survey, k: nat) returns (t: Survey)
    requires WellFormed(md) && MdTracks(md, s)
    ensures MdTracks(Run(md, EmptyLines(k)), t) && t.tables == s.tables
  {
    hide MdTracks, Step, EmptyLines;
    LastEmptyLine(k);
    if k == 0 {
      t := s;
    } else {
      var before := EmptyLinesTrack(md, s, k - 1);
      EmptyLineTracks(Run(md, EmptyLines(k - 1)), before);
      t := LookAt(before, Blank, false);
    }
  }

  lemma LastEmptyLine(k: nat)
    ensures if k == 0 then EmptyLines(k) == []
            else |EmptyLines(k)| == k && EmptyLines(k)[..k - 1] == EmptyLines(k - 1) && EmptyLines(k)[k - 1] == ""
  {
  }

  lemma EmptyLineTracks(md: Md, s: Survey)
    requires WellFormed(md) && MdTracks(md, s)
    ensures MdTracks(Step(md, ""), LookAt(s, Blank, false))
  {
    hide MdTracks, Classify, ClosesCode;
    EmptyLineIsBlank();
    MdStepTracks(md, s, "", Blank, false);
  }

  lemma {:induction false} StripFlags(blocks: seq<Block>)
    ensures Flags(StripBreaks(blocks)) == Flags(blocks)
    ensures AllFirstOnly(blocks) ==> AllFirstOnly(StripBreaks(blocks))
  {
    if |blocks| > 0 && blocks[|blocks| - 1].Break? {
      StripFlags(blocks[..|blocks| - 1]);
      assert Flags(blocks) == Flags(blocks[..|blocks| - 1]) + [];
    }
  }

  lemma FinishFlags(b: Batch, s: Survey)
    requires BatchTracks(b, s)
    ensures Flags(BatchFinish(b)) == Arounds(s.tables) && AllFirstOnly(BatchFinish(b))
  {
    if s.inCode {
      EmitFlags(b, s, Code(b.code.lang, Join(b.code.lines, NL)));
    } else {
      FlushListFlags(b, s);
      FlushTableFlags(FlushList(b), s);
    }
  }

  lemma PairsAgree(tables: seq<TableInfo>)
    ensures Befores(tables) == Arounds(tables)
            <==> forall i :: 0 <= i < |tables| ==> tables[i].before == tables[i].around
  {
    if Befores(tables) == Arounds(tables) {
      forall i | 0 <= i < |tables| ensures tables[i].before == tables[i].around {
        assert Befores(tables)[i] == Arounds(tables)[i];
      }
    }
  }

  /** Header rows of the streamed and of the one-shot blocks of a text. */
  lemma {:induction false} RenderedFlags(text: string)
    ensures var tables := LookThrough(Split(StripNewlines(text), NL)).tables;
            var a, b := Styled(text), StripBreaks(Formed(text));
            && AllFirstOnly(a) && AllFirstOnly(b) && Flags(a) == Befores(tables) && Flags(b) == Arounds(tables)
  {
    hide Classify, LookAt, Step, BatchStep, Flags, AllFirstOnly, StripBreaks, Split, LookThrough, Run, BatchRun;
    var body := StripNewlines(text);
    var k, lines := |text| - |body|, Split(body, NL);
    RunsTrack(lines);
    var s := LookThrough(lines);
    var t := EmptyLinesTrack(Run(START, lines), s, k);
    StyledStripped(text, body, k);
    StripFlags(Run(Run(START, lines), EmptyLines(k)).blocks);
    FinishFlags(BatchRun(BLANK, lines), s);
    StripFlags(Formed(text));
  }

  /** Where nothing throws. */
  lemma StyledIsFormed(text: string)
    ensures var body := StripNewlines(text);
            var md, k := Run(START, Split(body, NL)), |text| - |body|;
            Styled(text) == StripBreaks(Formed(text))
            <==> (k == 0 || !md.open.InCode? || (md.open.first && k == 1)) && HeadersAgree(Split(body, NL))
  {
    hide Classify, Flags, AllFirstOnly, StripBreaks, Split, LookThrough, Run, Erase, Styled, Formed;
    var a, b := Styled(text), StripBreaks(Formed(text));
    StyledEqualsFormed(text);
    EraseStrip(Formed(text));
    RenderedFlags(text);
    PairsAgree(LookThrough(Split(StripNewlines(text), NL)).tables);
    if Erase(a) == Erase(b) && Flags(a) == Flags(b) {
      SameBlocks(a, b);
    }
  }

  /**
   The two renderings of a text are the same, cell by cell, with the one-shot rendering's trailing breaks
   removed, exactly when every code block can be highlighted, no newlines trail behind an open one, other
   than a single one directly behind its fence, and the separators of every table count alike.
  */
  lemma StreamingIsFormat(text: string)
    ensures var body := StripNewlines(text);
            var md, k := Run(START, Split(body, NL)), |text| - |body|;
            var formatted := Format(text);
            formatted.Html? && Flush(FRESH, text) == Flushed(StripBreaks(formatted.blocks), false)
            <==> && Highlightable(text)
                 && (k == 0 || !md.open.InCode? || (md.open.first && k == 1)) && HeadersAgree(Split(body, NL))
  {
    hide Split, Run, Flush, Format, Highlightable, StripBreaks, Styled, Formed, HeadersAgree;
    FlushFresh(text);
    FormatGetsThrough(text);
    StyledIsFormed(text);
  }

  /** Any streaming of a text that ends in an ordinary line against the one-shot rendering, cell by cell. */
  lemma StreamedIsFormatted(raws: seq<string>, text: string)
    requires forall i :: 0 <= i < |raws| ==> raws[i] <= text
    requires |text| > 0 && text[|text| - 1] != NL
    requires var lines := Split(text, NL);
             var kind := Classify(lines[|lines| - 1]);
             !kind.Blank? && !kind.Separator?
    ensures var formatted := Format(text);
            && Unbroken(raws, text) && formatted.Html?
            && Flush(RenderAll(FRESH, raws), text) == Flushed(formatted.blocks, false)
            <==> Highlightable(text) && HeadersAgree(Split(text, NL))
  {
    hide Classify, Flags, StripBreaks, Split, LookThrough, BatchRun, Run, Erase, Flush, RenderAll, Format, Formed,
      Highlightable, HeadersAgree, Unbroken;
    UnfinishedIsChunkFree(raws, text);
    ChunkingIsIrrelevant(raws, text);
    StripNewlinesId(text);
    FormatGetsThrough(text);
    BreaklessEnd(text);
    StreamingIsFormat(text);
  }

  /** Such a text leaves no trailing break to remove. */
  lemma BreaklessEnd(text: string)
    requires |text| > 0 && text[|text| - 1] != NL
    requires var lines := Split(text, NL);
             var kind := Classify(lines[|lines| - 1]);
             !kind.Blank? && !kind.Separator?
    ensures StripBreaks(Formed(text)) == Formed(text)
  {
    hide Classify, StripBreaks, Split, BatchRun, Erase;
    StripNewlinesId(text);
    NoTrailingBreak(Split(text, NL));
    EraseStrip(Formed(text));
    assert |StripBreaks(Formed(text))| == |Erase(StripBreaks(Formed(text)))| == |Erase(Formed(text))|;
  }

  /** The usual table, a row, a separator, more rows: one-shot it has a header row, streamed it has none. */
  lemma UsualTable(lines: seq<string>)
    requires |lines| == 3
    requires Classify(lines[0]).TableRow? && Classify(lines[1]).Separator? && Classify(lines[2]).TableRow?
    ensures LookThrough(lines).tables == [TableInfo(false, true)] && !HeadersAgree(lines)
  {
    hide Classify, ClosesCode;
    var two := lines[..2];
    var one := two[..1];
    assert one[0] == lines[0] && two[1] == lines[1] && one[..0] == [];
    assert lines[..|lines| - 1] == two && two[..|two| - 1] == one;
    assert LookThrough(one[..0]) == NO_LINES;
    assert LookThrough(one) == NO_LINES.(inTable := true, tables := [TableInfo(false, false)]);
    assert LookThrough(two).tables == [TableInfo(false, true)];
    assert LookThrough(lines).tables[0] == TableInfo(false, true);
  }
}
