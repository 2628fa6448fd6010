/**
 Whole messages written part by part (frontend/js/messages.js:1360-1721): paragraphs, blank lines, headings,
 lists, tables and fenced code, each in its own lines. Both renderers give one block for every part, with
 exactly the texts, cells, items and code the lines were composed of.
*/
module MarkdownDocuments {
  import opened Text
  import opened MarkdownLines
  import opened MarkdownForms
  import opened MarkdownStream
  import opened MarkdownBatch

  datatype TableLine = Rule(line: string) | RowLine(line: string, cells: seq<string>)

  /** A part of a message: its lines, and what they say. */
  datatype Part =
    | Para(line: string)
    | Gap(line: string)
    | Title(line: string, level: nat, title: string)
    | Bullets(lines: seq<string>, texts: seq<string>)
    | Grid(rows: seq<TableLine>)
    | Listing(fence: string, lang: string, body: seq<string>, close: string)

  /** The lines are composed as their part says; code is in a language that can be highlighted. */
  ghost predicate Composed(p: Part) {
    match p
    case Para(line) => PlainForm(Trim(line))
    case Gap(line) => AllSpace(line)
    case Title(line, level, title) => HeadForm(Trim(line), level, title)
    case Bullets(lines, texts) =>
      |lines| == |texts| > 0 && forall i :: 0 <= i < |lines| ==> ItemForm(Trim(lines[i]), texts[i])
    case Grid(rows) =>
      && (exists i :: 0 <= i < |rows| && rows[i].RowLine?)
      && forall i :: 0 <= i < |rows| ==> GridLine(rows[i])
    case Listing(fence, lang, body, close) =>
      && FenceForm(Trim(fence), lang) && !Unhighlightable(lang) && IsTrimmed(close, "```")
      && forall i :: 0 <= i < |body| ==> !IsTrimmed(body[i], "```")
  }

  ghost predicate GridLine(r: TableLine) {
    match r
    case Rule(line) => RuleForm(Trim(line))
    case RowLine(line, cells) => RowForm(Trim(line), cells) && !RuleForm(Trim(line))
  }

  function LinesOf(p: Part): seq<string> {
    match p
    case Para(line) => [line]
    case Gap(line) => [line]
    case Title(line, _, _) => [line]
    case Bullets(lines, _) => lines
    case Grid(rows) => GridLines(rows)
    case Listing(fence, _, body, close) => [fence] + body + [close]
  }

  function GridLines(rows: seq<TableLine>): (lines: seq<string>)
    ensures |lines| == |rows| && forall i :: 0 <= i < |rows| ==> lines[i] == rows[i].line
  {
    seq(|rows|, i requires 0 <= i < |rows| => rows[i].line)
  }

  /** The cells of the rows, rules left out. */
  function CellsOf(rows: seq<TableLine>): seq<seq<string>> {
    if |rows| == 0 then []
    else
      var last := rows[|rows| - 1];
      CellsOf(rows[..|rows| - 1]) + if last.RowLine? then [last.cells] else []
  }

  predicate HasRule(rows: seq<TableLine>) { exists i :: 0 <= i < |rows| && rows[i].Rule? }

  predicate Ruled(p: Part) { p.Grid? && HasRule(p.rows) }

  /** The block a part shows as; `header` is whether the first row of a table is a header row. */
  function Shown(p: Part, header: bool): Block {
    match p
    case Para(line) => Paragraph(line)
    case Gap(_) => Break
    case Title(_, level, title) => Heading(level, title)
    case Bullets(_, texts) => List(texts)
    case Grid(rows) => Table(PrintedRows(CellsOf(rows), header))
    case Listing(_, lang, body, _) => Code(lang, Join(body, NL))
  }

  // ---- messages ------------------------------------------------------------------------------------

  function AllLines(doc: seq<Part>): seq<string> {
    if |doc| == 0 then [] else AllLines(doc[..|doc| - 1]) + LinesOf(doc[|doc| - 1])
  }

  /** No two lists and no two tables are next to one another, where they would be one. */
  ghost predicate Separate(doc: seq<Part>) {
    forall i :: 0 <= i < |doc| - 1 ==>
      !(doc[i].Bullets? && doc[i + 1].Bullets?) && !(doc[i].Grid? && doc[i + 1].Grid?)
  }

  ghost predicate IsDocument(doc: seq<Part>) {
    Separate(doc) && forall i :: 0 <= i < |doc| ==> Composed(doc[i])
  }

  predicate AnyRule(doc: seq<Part>) { exists i :: 0 <= i < |doc| && Ruled(doc[i]) }

  /** Streamed, a table has a header row if a rule came before its first row, in this table or an earlier one. */
  function StreamedBlocks(doc: seq<Part>): (r: seq<Block>)
    ensures |r| == |doc|
  {
    if |doc| == 0 then []
    else
      var init, p := doc[..|doc| - 1], doc[|doc| - 1];
      StreamedBlocks(init) + [Shown(p, AnyRule(init) || (p.Grid? && |p.rows| > 0 && p.rows[0].Rule?))]
  }

  /** Rendered at once, a table has a header row if it has a rule anywhere. */
  function OneShotBlocks(doc: seq<Part>): (r: seq<Block>)
    ensures |r| == |doc| && forall i :: 0 <= i < |r| ==> r[i] == Shown(doc[i], Ruled(doc[i]))
  {
    seq(|doc|, i requires 0 <= i < |doc| => Shown(doc[i], Ruled(doc[i])))
  }

  // ---- table lines -----------------------------------------------------------------------------------

  lemma RuleSnoc(init: seq<TableLine>, r: TableLine)
    ensures HasRule(init + [r]) <==> HasRule(init) || r.Rule?
  {
    if HasRule(init) {
      var i :| 0 <= i < |init| && init[i].Rule?;
      assert (init + [r])[i].Rule?;
    }
    assert (init + [r])[|init|] == r;
  }

  lemma GridReads(r: TableLine)
    requires GridLine(r)
    ensures r.Rule? ==> Classify(r.line) == Separator
    ensures r.RowLine? ==> Classify(r.line) == TableRow(r.cells)
  {
    hide Classify;
    ReadsRule(r.line);
    if r.RowLine? { ReadsRow(r.line, r.cells); }
  }

  /** No rows yet means only rules so far. */
  lemma {:induction false} NoCells(rows: seq<TableLine>)
    ensures CellsOf(rows) == [] <==> forall i :: 0 <= i < |rows| ==> rows[i].Rule?
  {
    if |rows| > 0 { NoCells(rows[..|rows| - 1]); }
  }

  // ---- the streaming machine, part by part -------------------------------------------------------------

  /** One more line outside code, read as `kind`. */
  lemma FeedNext(md: Md, init: seq<string>, line: string, kind: Kind)
    requires WellFormed(md) && !Feed(md, init).thrown && !Feed(md, init).md.open.InCode? && Classify(line) == kind
    ensures Feed(md, init + [line]) == Reached(StepAs(Feed(md, init).md, line, kind, false), false)
  {
    hide Classify, ClosesCode, Unfit;
    assert (init + [line])[..|init|] == init;
    NoneUnfit();
  }

  function GridState(md: Md, rows: seq<TableLine>): Md {
    if CellsOf(rows) == [] then md.(header := md.header || HasRule(rows))
    else Md(md.blocks + [Table(PrintedRows(CellsOf(rows), md.header || rows[0].Rule?))], InTable,
            md.header || HasRule(rows))
  }

  function KindOf(r: TableLine): Kind { if r.Rule? then Separator else TableRow(r.cells) }

  lemma {:induction false} GridStreams(md: Md, rows: seq<TableLine>)
    requires WellFormed(md) && !md.open.InCode? && !md.open.InTable?
    requires forall i :: 0 <= i < |rows| ==> GridLine(rows[i])
    ensures Feed(md, GridLines(rows)) == Reached(GridState(md, rows), false)
  {
    hide Feed, GridLine, GridState, StepAs, GridLines, CellsOf;
    if |rows| == 0 {
      FeedNone(md);
      assert GridLines(rows) == [];
      NoGrid(md, rows);
    } else {
      var init, r := rows[..|rows| - 1], rows[|rows| - 1];
      assert rows == init + [r] && GridLines(rows) == GridLines(init) + [r.line];
      GridStreams(md, init);
      GridReads(r);
      NoCells(init);
      GridStep(md, init, r);
      FeedNext(md, GridLines(init), r.line, KindOf(r));
    }
  }

  lemma NoGrid(md: Md, rows: seq<TableLine>)
    requires rows == []
    ensures GridState(md, rows) == md
  {
  }

  lemma CellsSnoc(init: seq<TableLine>, r: TableLine)
    ensures CellsOf(init + [r]) == CellsOf(init) + if r.RowLine? then [r.cells] else []
  {
    assert (init + [r])[..|init|] == init;
  }

  lemma GridStep(md: Md, init: seq<TableLine>, r: TableLine)
    requires WellFormed(md) && !md.open.InCode? && !md.open.InTable?
    requires CellsOf(init) == [] ==> forall i :: 0 <= i < |init| ==> init[i].Rule?
    ensures WellFormed(GridState(md, init)) && !GridState(md, init).open.InCode?
    ensures StepAs(GridState(md, init), r.line, KindOf(r), false) == GridState(md, init + [r])
  {
    hide HasRule, CellsOf, PrintedRows;
    var rows, s := init + [r], GridState(md, init);
    CellsSnoc(init, r);
    RuleSnoc(init, r);
    assert |init| > 0 ==> rows[0] == init[0];
    if CellsOf(init) == [] {
      AllRules(init);
      if r.RowLine? { OneRow(r.cells, s.header); }
    } else {
      assert |init| > 0 by { if |init| == 0 { assert init == []; EmptyCells(); } }
      if r.RowLine? {
        NextRow(md.blocks, s, CellsOf(init), r.cells, md.header || rows[0].Rule?);
      } else {
        assert CellsOf(init) + [] == CellsOf(init);
      }
    }
  }

  lemma EmptyCells()
    ensures CellsOf([]) == []
  {
  }

  lemma OneRow(cells: seq<string>, header: bool)
    ensures PrintedRows([] + [cells], header) == [Row(header, cells)]
  {
  }

  lemma NextRow(blocks: seq<Block>, s: Md, cells: seq<seq<string>>, more: seq<string>, header: bool)
    requires |cells| > 0 && s.blocks == blocks + [Table(PrintedRows(cells, header))]
    ensures ReplaceLast(s, Table(LastBlock(s).rows + [Row(false, more)]))
         == blocks + [Table(PrintedRows(cells + [more], header))]
  {
    assert PrintedRows(cells + [more], header) == PrintedRows(cells, header) + [Row(false, more)];
  }

  lemma AllRules(init: seq<TableLine>)
    requires forall i :: 0 <= i < |init| ==> init[i].Rule?
    ensures HasRule(init) <==> |init| > 0
  {
    if |init| > 0 { assert init[0].Rule?; }
  }

  function BulletState(md: Md, texts: seq<string>): Md {
    if texts == [] then md else Md(md.blocks + [List(texts)], InList, md.header)
  }

  lemma {:induction false} BulletsStream(md: Md, lines: seq<string>, texts: seq<string>)
    requires WellFormed(md) && !md.open.InCode? && !md.open.InList?
    requires |lines| == |texts| && forall i :: 0 <= i < |lines| ==> ItemForm(Trim(lines[i]), texts[i])
    ensures Feed(md, lines) == Reached(BulletState(md, texts), false)
  {
    hide Feed, ItemForm, Trim, StepAs, BulletState;
    if |lines| == 0 {
      FeedNone(md);
      assert lines == [] && texts == [] && BulletState(md, []) == md by { NoBullets(md); }
    } else {
      var n := |lines| - 1;
      BulletsStream(md, lines[..n], texts[..n]);
      ReadsItem(lines[n], texts[n]);
      assert texts == texts[..n] + [texts[n]] && lines == lines[..n] + [lines[n]];
      BulletStep(md, lines[n], texts[..n], texts[n]);
      FeedNext(md, lines[..n], lines[n], Item(texts[n]));
    }
  }

  lemma NoBullets(md: Md)
    ensures BulletState(md, []) == md
  {
  }

  lemma BulletStep(md: Md, line: string, texts: seq<string>, text: string)
    requires WellFormed(md) && !md.open.InCode? && !md.open.InList?
    ensures WellFormed(BulletState(md, texts)) && !BulletState(md, texts).open.InCode?
    ensures StepAs(BulletState(md, texts), line, Item(text), false) == BulletState(md, texts + [text])
  {
    var s := BulletState(md, texts);
    if texts == [] {
      assert texts + [text] == [text];
    } else {
      assert ReplaceLast(s, List(texts + [text])) == md.blocks + [List(texts + [text])];
    }
  }

  function ListingState(md: Md, lang: string, body: seq<string>): Md {
    Md(md.blocks + [Code(lang, Join(body, NL))], InCode(body == []), md.header)
  }

  /** One more line inside code that does not close it. */
  lemma FeedInside(md: Md, init: seq<string>, line: string)
    requires WellFormed(md) && !Feed(md, init).thrown && Feed(md, init).md.open.InCode? && !ClosesCode(line)
    ensures Feed(md, init + [line]) == Reached(StepAs(Feed(md, init).md, line, Plain, false), false)
  {
    hide Classify, ClosesCode, Unfit;
    assert (init + [line])[..|init|] == init;
  }

  lemma {:induction false} BodyStreams(md: Md, lang: string, body: seq<string>)
    requires WellFormed(ListingState(md, lang, []))
    requires forall i :: 0 <= i < |body| ==> !ClosesCode(body[i])
    ensures Feed(ListingState(md, lang, []), body) == Reached(ListingState(md, lang, body), false)
  {
    hide Feed, ClosesCode, StepAs, ListingState, Join;
    if |body| == 0 {
      FeedNone(ListingState(md, lang, []));
      assert body == [];
    } else {
      var init, line := body[..|body| - 1], body[|body| - 1];
      BodyStreams(md, lang, init);
      BodyStep(md, lang, init, line);
      assert body == init + [line];
      FeedInside(ListingState(md, lang, []), init, line);
    }
  }

  lemma BodyStep(md: Md, lang: string, init: seq<string>, line: string)
    ensures var s := ListingState(md, lang, init);
            && WellFormed(s) && s.open.InCode?
            && StepAs(s, line, Plain, false) == ListingState(md, lang, init + [line])
  {
    JoinSnoc(init, line);
    var s, text := ListingState(md, lang, init), Join(init + [line], NL);
    assert ReplaceLast(s, Code(lang, text)) == md.blocks + [Code(lang, text)];
  }

  lemma ListingStreams(md: Md, p: Part)
    requires WellFormed(md) && !md.open.InCode? && p.Listing? && Composed(p)
    ensures Feed(md, LinesOf(p)) == Reached(Md(md.blocks + [Shown(p, false)], Closed, md.header), false)
  {
    hide Feed, FenceForm, IsTrimmed, Trim, ClosesCode, Unhighlightable, Step, StepAs, ListingState, Throws, Join;
    ReadsFence(p.fence, p.lang);
    ClosesIs(p.close);
    forall i | 0 <= i < |p.body| ensures !ClosesCode(p.body[i]) { ClosesIs(p.body[i]); }
    FenceStep(md, p.fence, p.lang);
    FeedNone(md);
    FeedNext(md, [], p.fence, Fence(p.lang));
    assert [] + [p.fence] == [p.fence];
    BodyStreams(md, p.lang, p.body);
    CloseStep(md, p.lang, p.body, p.close);
    FeedOne(ListingState(md, p.lang, p.body), p.close);
    FeedAppend(md, [p.fence], p.body);
    FeedAppend(md, [p.fence] + p.body, [p.close]);
  }

  lemma FenceStep(md: Md, fence: string, lang: string)
    requires WellFormed(md) && !md.open.InCode?
    ensures StepAs(md, fence, Fence(lang), false) == ListingState(md, lang, [])
    ensures WellFormed(ListingState(md, lang, []))
  {
  }

  lemma CloseStep(md: Md, lang: string, body: seq<string>, close: string)
    requires ClosesCode(close) && !Unhighlightable(lang)
    ensures var s := ListingState(md, lang, body);
            && WellFormed(s) && !Throws(s, close)
            && Step(s, close) == Md(md.blocks + [Code(lang, Join(body, NL))], Closed, md.header)
  {
    hide Classify, ClosesCode;
  }

  lemma ClosesIs(line: string)
    ensures ClosesCode(line) <==> IsTrimmed(line, "```")
  {
    TrimIs(line, "```");
  }

  predicate IsSingle(p: Part) { p.Para? || p.Gap? || p.Title? }

  function SingleKind(p: Part): Kind
    requires IsSingle(p)
  {
    match p case Para(_) => Plain case Gap(_) => Blank case Title(_, level, title) => Header(level, title)
  }

  lemma SingleReads(p: Part)
    requires IsSingle(p) && Composed(p)
    ensures Classify(p.line) == SingleKind(p)
  {
    hide Classify, Trim, PlainForm, AllSpace, HeadForm;
    match p
    case Para(line) => ReadsPlain(line);
    case Gap(line) => ReadsBlank(line);
    case Title(line, level, title) => ReadsHead(line, level, title);
  }

  lemma SingleStreams(md: Md, p: Part)
    requires WellFormed(md) && !md.open.InCode? && IsSingle(p) && Composed(p)
    ensures Feed(md, LinesOf(p)) == Reached(Md(md.blocks + [Shown(p, false)], Closed, md.header), false)
  {
    hide Feed, Composed;
    SingleReads(p);
    FeedNone(md);
    FeedNext(md, [], p.line, SingleKind(p));
    assert [] + [p.line] == [p.line];
  }

  /** What is open behind a part. */
  function OpenBehind(p: Part): Open { if p.Bullets? then InList else if p.Grid? then InTable else Closed }

  lemma PartStreams(md: Md, p: Part)
    requires WellFormed(md) && !md.open.InCode? && Composed(p)
    requires (p.Bullets? ==> !md.open.InList?) && (p.Grid? ==> !md.open.InTable?)
    ensures Feed(md, LinesOf(p))
         == Reached(Md(md.blocks + [Shown(p, md.header || (p.Grid? && |p.rows| > 0 && p.rows[0].Rule?))],
                       OpenBehind(p), md.header || Ruled(p)), false)
  {
    hide Feed, ItemForm, Trim, GridLine, PrintedRows, FenceForm, PlainForm, HeadForm, AllSpace, IsTrimmed;
    match p
    case Bullets(lines, texts) => BulletsStream(md, lines, texts);
    case Grid(rows) =>
      GridStreams(md, rows);
      NoCells(rows);
    case Listing(_, _, _, _) => ListingStreams(md, p);
    case _ => SingleStreams(md, p);
  }

  // ---- the one-shot machine, part by part ----------------------------------------------------------------

  /** Between parts: no code pending, at most a list or table rows, and a rule only with rows. */
  predicate Between(b: Batch) {
    b.code.NoBlock? && OnePending(b) && (|b.rows| == 0 ==> !b.hasHeader)
  }

  /** What has been printed once everything pending is. */
  function Done(b: Batch): seq<Block> { FlushList(FlushTable(b)).html }

  lemma BatchNext(b: Batch, init: seq<string>, line: string, kind: Kind)
    requires !BatchFeed(b, init).thrown && BatchFeed(b, init).batch.code.NoBlock? && Classify(line) == kind
    ensures BatchFeed(b, init + [line]) == Fed(BatchStepAs(BatchFeed(b, init).batch, line, kind, false), false)
  {
    hide Classify, ClosesCode, Unfit;
    assert (init + [line])[..|init|] == init;
    NoneUnfit();
  }

  lemma BatchFeedNone(b: Batch)
    ensures BatchFeed(b, []) == Fed(b, false)
  {
  }

  function GridBatch(b: Batch, rows: seq<TableLine>): Batch {
    if CellsOf(rows) == [] then b.(hasHeader := HasRule(rows))
    else Batch(Done(b), [], CellsOf(rows), HasRule(rows), NoBlock)
  }

  lemma {:induction false} GridBatches(b: Batch, rows: seq<TableLine>)
    requires Between(b) && |b.rows| == 0
    requires forall i :: 0 <= i < |rows| ==> GridLine(rows[i])
    ensures BatchFeed(b, GridLines(rows)) == Fed(GridBatch(b, rows), false)
  {
    hide BatchFeed, GridLine, GridBatch, BatchStepAs, GridLines, CellsOf;
    if |rows| == 0 {
      BatchFeedNone(b);
      assert GridLines(rows) == [];
      NoGridBatch(b, rows);
    } else {
      var init, r := rows[..|rows| - 1], rows[|rows| - 1];
      assert rows == init + [r] && GridLines(rows) == GridLines(init) + [r.line];
      GridBatches(b, init);
      GridReads(r);
      GridBatchStep(b, init, r);
      BatchNext(b, GridLines(init), r.line, KindOf(r));
    }
  }

  lemma NoGridBatch(b: Batch, rows: seq<TableLine>)
    requires rows == [] && Between(b) && |b.rows| == 0
    ensures GridBatch(b, rows) == b
  {
  }

  lemma GridBatchStep(b: Batch, init: seq<TableLine>, r: TableLine)
    requires Between(b) && |b.rows| == 0
    ensures GridBatch(b, init).code.NoBlock?
    ensures BatchStepAs(GridBatch(b, init), r.line, KindOf(r), false) == GridBatch(b, init + [r])
  {
    hide HasRule, CellsOf;
    CellsSnoc(init, r);
    RuleSnoc(init, r);
    assert CellsOf(init) + [] == CellsOf(init);
  }

  function BulletBatch(b: Batch, texts: seq<string>): Batch {
    if texts == [] then b else Batch(Done(b), texts, [], false, NoBlock)
  }

  lemma {:induction false} BulletsBatch(b: Batch, lines: seq<string>, texts: seq<string>)
    requires Between(b) && |b.items| == 0
    requires |lines| == |texts| && forall i :: 0 <= i < |lines| ==> ItemForm(Trim(lines[i]), texts[i])
    ensures BatchFeed(b, lines) == Fed(BulletBatch(b, texts), false)
  {
    hide BatchFeed, ItemForm, Trim, BatchStepAs, BulletBatch;
    if |lines| == 0 {
      BatchFeedNone(b);
      assert lines == [] && texts == [] && BulletBatch(b, []) == b by { NoBulletBatch(b); }
    } else {
      var n := |lines| - 1;
      BulletsBatch(b, lines[..n], texts[..n]);
      ReadsItem(lines[n], texts[n]);
      assert texts == texts[..n] + [texts[n]] && lines == lines[..n] + [lines[n]];
      BulletBatchStep(b, lines[n], texts[..n], texts[n]);
      BatchNext(b, lines[..n], lines[n], Item(texts[n]));
    }
  }

  lemma NoBulletBatch(b: Batch)
    ensures BulletBatch(b, []) == b
  {
  }

  lemma BulletBatchStep(b: Batch, line: string, texts: seq<string>, text: string)
    requires Between(b) && |b.items| == 0
    ensures BulletBatch(b, texts).code.NoBlock?
    ensures BatchStepAs(BulletBatch(b, texts), line, Item(text), false) == BulletBatch(b, texts + [text])
  {
    assert [] + [text] == [text];
  }

  function ListingBatch(b: Batch, lang: string, body: seq<string>): Batch {
    Batch(Done(b), [], [], false, CodeBlock.Block(lang, body))
  }

  lemma BatchInside(b: Batch, init: seq<string>, line: string)
    requires !BatchFeed(b, init).thrown && BatchFeed(b, init).batch.code.Block? && !ClosesCode(line)
    ensures BatchFeed(b, init + [line]) == Fed(BatchStepAs(BatchFeed(b, init).batch, line, Plain, false), false)
  {
    hide Classify, ClosesCode, Unfit;
    assert (init + [line])[..|init|] == init;
  }

  lemma {:induction false} BodyBatches(b: Batch, lang: string, body: seq<string>)
    requires forall i :: 0 <= i < |body| ==> !ClosesCode(body[i])
    ensures BatchFeed(ListingBatch(b, lang, []), body) == Fed(ListingBatch(b, lang, body), false)
  {
    hide BatchFeed, ClosesCode;
    if |body| == 0 {
      BatchFeedNone(ListingBatch(b, lang, []));
      assert body == [];
    } else {
      var init, line := body[..|body| - 1], body[|body| - 1];
      BodyBatches(b, lang, init);
      assert body == init + [line];
      BatchInside(ListingBatch(b, lang, []), init, line);
    }
  }

  lemma {:induction false} BatchFeedAppend(b: Batch, x: seq<string>, y: seq<string>)
    ensures var fed := BatchFeed(b, x);
            BatchFeed(b, x + y) == if fed.thrown then fed else BatchFeed(fed.batch, y)
  {
    hide BatchStep, BatchThrows;
    if |y| == 0 {
      assert x + y == x;
    } else {
      assert (x + y)[..|x + y| - 1] == x + y[..|y| - 1];
      BatchFeedAppend(b, x, y[..|y| - 1]);
    }
  }

  lemma BatchFeedOne(b: Batch, line: string)
    ensures BatchFeed(b, [line]) == if BatchThrows(b, line) then Fed(b, true) else Fed(BatchStep(b, line), false)
  {
    assert [line][..0] == [];
  }

  /** A part printed behind what is done. */
  ghost predicate PartPrinted(b: Batch, p: Part, fed: Fed) {
    && !fed.thrown && Between(fed.batch) && Done(fed.batch) == Done(b) + [Shown(p, Ruled(p))]
    && (|fed.batch.items| > 0 <==> p.Bullets?) && (|fed.batch.rows| > 0 <==> p.Grid?)
  }

  lemma ListingBatches(b: Batch, p: Part)
    requires Between(b) && p.Listing? && Composed(p)
    ensures PartPrinted(b, p, BatchFeed(b, LinesOf(p)))
  {
    hide BatchFeed, FenceForm, IsTrimmed, Trim, ClosesCode, Unhighlightable, BatchStep, BatchThrows, ListingBatch, Join;
    ReadsFence(p.fence, p.lang);
    ClosesIs(p.close);
    forall i | 0 <= i < |p.body| ensures !ClosesCode(p.body[i]) { ClosesIs(p.body[i]); }
    FenceBatch(b, p.fence, p.lang);
    BatchFeedNone(b);
    BatchNext(b, [], p.fence, Fence(p.lang));
    assert [] + [p.fence] == [p.fence];
    BodyBatches(b, p.lang, p.body);
    CloseBatch(b, p.lang, p.body, p.close);
    BatchFeedOne(ListingBatch(b, p.lang, p.body), p.close);
    BatchFeedAppend(b, [p.fence], p.body);
    BatchFeedAppend(b, [p.fence] + p.body, [p.close]);
  }

  lemma FenceBatch(b: Batch, fence: string, lang: string)
    requires Between(b)
    ensures BatchStepAs(b, fence, Fence(lang), false) == ListingBatch(b, lang, [])
  {
  }

  lemma CloseBatch(b: Batch, lang: string, body: seq<string>, close: string)
    requires ClosesCode(close) && !Unhighlightable(lang)
    ensures var s := ListingBatch(b, lang, body);
            && !BatchThrows(s, close)
            && BatchStep(s, close) == Batch(Done(b) + [Code(lang, Join(body, NL))], [], [], false, NoBlock)
  {
    hide Classify, ClosesCode;
  }

  lemma SingleBatches(b: Batch, p: Part)
    requires Between(b) && IsSingle(p) && Composed(p)
    ensures PartPrinted(b, p, BatchFeed(b, LinesOf(p)))
  {
    hide BatchFeed, Composed;
    SingleReads(p);
    BatchFeedNone(b);
    BatchNext(b, [], p.line, SingleKind(p));
    assert [] + [p.line] == [p.line];
  }

  lemma PartBatches(b: Batch, p: Part)
    requires Between(b) && Composed(p)
    requires (p.Bullets? ==> |b.items| == 0) && (p.Grid? ==> |b.rows| == 0)
    ensures PartPrinted(b, p, BatchFeed(b, LinesOf(p)))
  {
    hide BatchFeed, ItemForm, Trim, GridLine, PrintedRows, FenceForm, PlainForm, HeadForm, AllSpace, IsTrimmed;
    match p
    case Bullets(lines, texts) => BulletsBatch(b, lines, texts);
    case Grid(rows) =>
      GridBatches(b, rows);
      NoCells(rows);
    case Listing(_, _, _, _) => ListingBatches(b, p);
    case _ => SingleBatches(b, p);
  }

  // ---- whole messages -----------------------------------------------------------------------------------

  lemma DocumentInit(doc: seq<Part>)
    requires IsDocument(doc) && |doc| > 0
    ensures IsDocument(doc[..|doc| - 1]) && Composed(doc[|doc| - 1])
    ensures AnyRule(doc) <==> AnyRule(doc[..|doc| - 1]) || Ruled(doc[|doc| - 1])
    ensures |doc| > 1 ==> !(doc[|doc| - 2].Bullets? && doc[|doc| - 1].Bullets?)
                          && !(doc[|doc| - 2].Grid? && doc[|doc| - 1].Grid?)
  {
    hide Composed, Ruled;
    var n := |doc| - 1;
    if AnyRule(doc[..n]) {
      var i :| 0 <= i < n && Ruled(doc[..n][i]);
      assert Ruled(doc[i]);
    }
    if AnyRule(doc) {
      var i :| 0 <= i < |doc| && Ruled(doc[i]);
      assert i < n ==> Ruled(doc[..n][i]);
    }
    assert n > 0 ==> doc[n - 1 + 1] == doc[n];
  }

  lemma {:induction false} DocumentStreams(doc: seq<Part>)
    requires IsDocument(doc)
    ensures var open := if |doc| == 0 then Closed else OpenBehind(doc[|doc| - 1]);
            Feed(START, AllLines(doc)) == Reached(Md(StreamedBlocks(doc), open, AnyRule(doc)), false)
  {
    hide Feed, LinesOf, Shown, Ruled, IsDocument, Composed, AnyRule;
    if |doc| == 0 {
      EmptyDocument(doc);
    } else {
      var init, p := doc[..|doc| - 1], doc[|doc| - 1];
      DocumentInit(doc);
      DocumentStreams(init);
      FeedAppend(START, AllLines(init), LinesOf(p));
      assert |init| > 0 ==> init[|init| - 1] == doc[|doc| - 2];
      PartStreams(Feed(START, AllLines(init)).md, p);
    }
  }

  lemma EmptyDocument(doc: seq<Part>)
    requires doc == []
    ensures Feed(START, AllLines(doc)) == Reached(START, false) && !AnyRule(doc)
  {
  }

  lemma {:induction false} DocumentBatches(doc: seq<Part>)
    requires IsDocument(doc)
    ensures var fed := BatchFeed(BLANK, AllLines(doc));
            && !fed.thrown && Between(fed.batch) && Done(fed.batch) == OneShotBlocks(doc)
            && (|fed.batch.items| > 0 <==> |doc| > 0 && doc[|doc| - 1].Bullets?)
            && (|fed.batch.rows| > 0 <==> |doc| > 0 && doc[|doc| - 1].Grid?)
  {
    hide BatchFeed, LinesOf, Shown, Ruled, IsDocument, Composed, AnyRule, Between, Done, OneShotBlocks;
    if |doc| == 0 {
      NoDocument(doc);
    } else {
      var init, p := doc[..|doc| - 1], doc[|doc| - 1];
      DocumentInit(doc);
      DocumentBatches(init);
      BatchFeedAppend(BLANK, AllLines(init), LinesOf(p));
      assert |init| > 0 ==> init[|init| - 1] == doc[|doc| - 2];
      PartBatches(BatchFeed(BLANK, AllLines(init)).batch, p);
      OneShotSnoc(doc);
    }
  }

  lemma NoDocument(doc: seq<Part>)
    requires doc == []
    ensures BatchFeed(BLANK, AllLines(doc)) == Fed(BLANK, false)
    ensures Between(BLANK) && Done(BLANK) == [] && OneShotBlocks(doc) == []
  {
  }

  lemma OneShotSnoc(doc: seq<Part>)
    requires |doc| > 0
    ensures OneShotBlocks(doc)
         == OneShotBlocks(doc[..|doc| - 1]) + [Shown(doc[|doc| - 1], Ruled(doc[|doc| - 1]))]
  {
  }

  lemma FinishDone(b: Batch)
    requires Between(b)
    ensures BatchFinish(b) == Done(b) && BatchLanguage(b) == NoCode
  {
  }

  lemma {:induction false} PartHasLines(doc: seq<Part>)
    requires IsDocument(doc) && |doc| > 0
    ensures |AllLines(doc)| > 0
  {
    DocumentInit(doc);
    SomeLine(doc[|doc| - 1]);
  }

  lemma SomeLine(p: Part)
    requires Composed(p)
    ensures |LinesOf(p)| > 0
  {
    hide ItemForm, GridLine, FenceForm, PlainForm, HeadForm, AllSpace, IsTrimmed, Trim;
  }

  /**
   A message composed of such parts shows as one block per part in both renderers. The streamed one drops
   trailing breaks; the one-shot one is given for messages that do not end in an empty line.
  */
  lemma DocumentRenders(doc: seq<Part>, text: string)
    requires IsDocument(doc) && |doc| > 0 && NoneContains(AllLines(doc), NL) && text == Join(AllLines(doc), NL)
    ensures Highlightable(text)
    ensures Flush(FRESH, text) == Flushed(StripBreaks(StreamedBlocks(doc)), false)
    ensures text != "" && text[|text| - 1] != NL ==> Format(text) == Html(OneShotBlocks(doc))
  {
    hide Feed, BatchFeed, IsDocument, AnyRule, Split, Join, AllLines, Unfit, NoneClosed, LanguageAfter, Run, BatchRun,
      Flush, Format, StripBreaks, Between, BatchFinish, BatchLanguage, Done;
    var lines := AllLines(doc);
    PartHasLines(doc);
    SplitJoin(lines, NL);
    DocumentStreams(doc);
    FeedThrows(lines);
    FeedRuns(START, lines);
    RunLanguage(lines);
    NoneUnfit();
    FlushFresh(text);
    DocumentBatches(doc);
    BatchFeedRuns(BLANK, lines);
    FinishDone(BatchFeed(BLANK, lines).batch);
    FormatGetsThrough(text);
    if text != "" && text[|text| - 1] != NL { StripNewlinesId(text); }
  }
}
