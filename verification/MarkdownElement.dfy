/**
 The streaming renderer as the code has it (frontend/js/messages.js:1461-1721): an element whose last
 child may still be open, and a record of references into it. Each method is proved to be the matching
 function of MarkdownStream. A method that may throw says whether it did.
*/
module MarkdownElement {
  import opened Text
  import opened MarkdownLines
  import opened MarkdownStream
  import CodeHighlight

  /** A reference to a child of the element, or `null`. */
  datatype NodeRef = NoNode | Child(at: int)

  /** `tableRows`: rows not yet rendered, or `null` without an open table. */
  datatype Pending = NoRows | Rows(rows: seq<seq<string>>)

  /** `Step` on a line that is no table row, outside code and tables, test by test. */
  lemma StepOther(md: Md, line: string)
    requires WellFormed(md) && !md.open.InCode? && !IsTableRow(Trim(line))
    ensures var t := Trim(line);
            Step(md, line) ==
            if IsHeader(t) then Append(md, Heading(HeaderLevel(t), t[HeaderLevel(t) + 1..]), Closed)
            else if IsFence(t) then Append(md, Code(t[3..], ""), InCode(true))
            else if "- " <= t then StepItem(md, t[2..])
            else if IsNumbered(t) then StepItem(md, NumberedText(t))
            else Append(md, if |t| == 0 then Break else Paragraph(line), Closed)
  {
    hide TrimBy, Span;
  }

  /** `Step` inside a code block. */
  lemma StepInside(md: Md, line: string)
    requires WellFormed(md) && md.open.InCode?
    ensures Step(md, line) ==
            if Trim(line) == FENCE then md.(open := Closed)
            else md.(blocks := ReplaceLast(md, Code(LastBlock(md).lang,
                       LastBlock(md).text + (if md.open.first then "" else [NL]) + line)), open := InCode(false))
  {
    hide Classify;
  }

  function StepItem(md: Md, text: string): Md
    requires WellFormed(md)
  {
    if md.open.InList? then md.(blocks := ReplaceLast(md, List(LastBlock(md).items + [text])))
    else Append(md, List([text]), InList)
  }

  /** Only a table row cares whether a table was still open. */
  lemma StepClosesTable(md: Md, line: string)
    requires WellFormed(md) && md.open.InTable? && !IsTableRow(Trim(line))
    ensures Step(md, line) == Step(md.(open := Closed), line)
  {
    StepOther(md, line);
    StepOther(md.(open := Closed), line);
  }

  class Element {
    /** Whether the element is part of the document; decides what `isConnected` answers. */
    const attached: bool
    var children: seq<Block>
    var started: bool
    var renderedLen: nat
    /** `NoCode` is the `null` it has outside a code block. */
    var codeLang: Language
    var codeText: NodeRef
    var codeFirst: bool
    var listEl: NodeRef
    var tableRows: Pending
    var tableHeader: bool
    var tableEl: NodeRef
    var tableRowCount: nat

    function Last(): int reads this { |children| - 1 }

    ghost predicate CodeValid()
      reads this
    {
      match codeLang
      case NoCode => codeText == NoNode
      case Lang(name) =>
        && |children| > 0 && codeText == Child(Last()) && children[Last()].Code? && children[Last()].lang == name
        && (codeFirst ==> children[Last()].text == "")
    }

    ghost predicate TableValid()
      reads this
    {
      match tableEl
      case NoNode => tableRows == NoRows && tableRowCount == 0
      case Child(_) =>
        && |children| > 0 && tableEl == Child(Last()) && children[Last()].Table? && tableRows == Rows([])
        && |children[Last()].rows| == tableRowCount > 0
    }

    /** At most one of code, list and table is open, and it is the last child. */
    ghost predicate Valid()
      reads this
    {
      && (codeLang.Lang? || listEl.Child? || tableEl.Child? ==> |children| > 0)
      && CodeValid() && TableValid()
      && (listEl.Child? ==> listEl == Child(Last()) && children[Last()].List?)
      && (codeLang.Lang? ==> listEl == NoNode && tableEl == NoNode)
      && (listEl.Child? ==> tableEl == NoNode)
    }

    /** The machine state the references stand for. */
    ghost function State(): (md: Md)
      requires Valid()
      reads this
      ensures WellFormed(md)
    {
      var open := if codeLang.Lang? then InCode(codeFirst)
                  else if listEl.Child? then InList
                  else if tableEl.Child? then InTable
                  else Closed;
      Md(children, open, tableHeader)
    }

    constructor (attached: bool)
      ensures Valid() && !started && children == []
    {
      this.attached := attached;
      children, started := [], false;
      renderedLen, codeLang, codeText, codeFirst := 0, NoCode, NoNode, true;
      listEl, tableRows, tableHeader, tableEl, tableRowCount := NoNode, NoRows, false, NoNode, 0;
    }

    /** `el._md = OSA.createIncrementalMd()` on an emptied element. */
    method CreateIncrementalMd()
      modifies this
      ensures Valid() && started && renderedLen == 0 && State() == START
    {
      children, started := [], true;
      renderedLen, codeLang, codeText, codeFirst := 0, NoCode, NoNode, true;
      listEl, tableRows, tableHeader, tableEl, tableRowCount := NoNode, NoRows, false, NoNode, 0;
    }

    /** `el.appendChild(child)` on a node that may already be a child: it moves to the end. */
    function Reappended(at: int): seq<Block>
      requires 0 <= at < |children|
      reads this
    {
      children[..at] + children[at + 1..] + [children[at]]
    }

    /** Lets go of an open list, putting it back in place first if it is not connected. */
    method CloseList()
      requires Valid()
      modifies this
      ensures Valid() && renderedLen == old(renderedLen) && started == old(started)
      ensures State() == if old(State()).open.InList? then old(State()).(open := Closed) else old(State())
      ensures old(tableEl) == tableEl && listEl == NoNode && codeLang == old(codeLang)
    {
      if listEl.Child? {
        if !attached {
          assert Reappended(listEl.at) == children;
          children := Reappended(listEl.at);
        }
        listEl := NoNode;
      }
    }

    method AddItem(text: string)
      requires Valid() && codeLang == NoCode && tableEl == NoNode
      modifies this
      ensures Valid() && renderedLen == old(renderedLen) && started == old(started)
      ensures State() == StepItem(old(State()), text)
    {
      if listEl == NoNode {
        listEl := Child(|children|);
        children := children + [List([])];
      } else if !attached {
        assert Reappended(listEl.at) == children;
        children := Reappended(listEl.at);
      }
      var at := listEl.at;
      ghost var before := children;
      children := children[at := List(children[at].items + [text])];
      assert children == before[..|before| - 1] + [children[at]];
      assert [] + [text] == [text];
      assert children[at] == List((if old(listEl).Child? then old(children[Last()]).items else []) + [text]);
    }

    /** `mdBuildTable`: renders the pending rows into the open table. */
    method BuildTable()
      requires tableEl == Child(Last()) && |children| > 0 && children[Last()].Table?
      requires tableRows.Rows? && |tableRows.rows| <= 1 && |children[Last()].rows| == tableRowCount
      modifies this`children, this`tableRowCount, this`tableRows
      ensures tableRows == Rows([]) && |children| == |old(children)|
      ensures tableRowCount == old(tableRowCount) + |old(tableRows).rows|
      ensures children == if |old(tableRows).rows| == 0 then old(children)
                else old(children)[|old(children)| - 1 := Table(old(children[Last()]).rows +
                       [Row(old(tableRowCount) == 0 && tableHeader, old(tableRows).rows[0])])]
    {
      if |tableRows.rows| == 1 {
        var row := Row(tableRowCount == 0 && tableHeader, tableRows.rows[0]);
        children := children[tableEl.at := Table(children[tableEl.at].rows + [row])];
      }
      tableRowCount := tableRowCount + |tableRows.rows|;
      tableRows := Rows([]);
    }

    method AddRow(cells: seq<string>)
      requires Valid() && codeLang == NoCode && listEl == NoNode
      modifies this
      ensures Valid() && renderedLen == old(renderedLen) && started == old(started)
      ensures var md := old(State());
              State() == if md.open.InTable?
                         then md.(blocks := ReplaceLast(md, Table(LastBlock(md).rows + [Row(false, cells)])))
                         else Append(md, Table([Row(md.header, cells)]), InTable)
    {
      if tableRows == NoRows { tableRows := Rows([]); }
      if tableEl == NoNode {
        tableEl, tableRowCount := Child(|children|), 0;
        children := children + [Table([])];
      }
      tableRows := Rows(tableRows.rows + [cells]);
      ghost var before, rows := children, children[Last()].rows;
      ghost var row := Row(tableRowCount == 0 && tableHeader, cells);
      BuildTable();
      assert children == before[..|before| - 1] + [Table(rows + [row])];
      assert [] + [row] == [row];
    }

    method CloseTable()
      requires Valid() && codeLang == NoCode
      modifies this
      ensures Valid() && renderedLen == old(renderedLen) && started == old(started)
      ensures State() == if old(State()).open.InTable? then old(State()).(open := Closed) else old(State())
      ensures tableEl == NoNode && codeLang == NoCode && listEl == old(listEl)
    {
      // `mdBuildTable` has nothing to do here: every row was rendered as it came.
      assert tableRows.Rows? ==> tableRows.rows == [];
      tableEl, tableRowCount, tableRows := NoNode, 0, NoRows;
    }

    /** Adds a block that takes no further lines. */
    method AddBlock(block: Block)
      requires Valid() && codeLang == NoCode && tableEl == NoNode && listEl == NoNode
      modifies this
      ensures Valid() && renderedLen == old(renderedLen) && started == old(started)
      ensures State() == Append(old(State()), block, Closed)
    {
      children := children + [block];
    }

    method OpenCodeBlock(lang: string)
      requires Valid() && codeLang == NoCode && tableEl == NoNode && listEl == NoNode
      modifies this
      ensures Valid() && renderedLen == old(renderedLen) && started == old(started)
      ensures State() == Append(old(State()), Code(lang, ""), InCode(true))
    {
      codeText := Child(|children|);
      children := children + [Code(lang, "")];
      codeLang, codeFirst := Lang(lang), true;
    }

    /** Highlights the open code block, if its fence named a language; its text stays what it was. */
    method HighlightOpen() returns (thrown: bool)
      requires Valid() && codeLang.Lang?
      ensures thrown == Unfit(codeLang)
    {
      thrown := false;
      if codeLang.name != "" {
        var html := CodeHighlight.HighlightCode(children[codeText.at].text, codeLang.name);
        thrown := html.TypeError?;
      } else {
        assert CodeHighlight.Lower("") == "";
      }
    }

    method CodeLine(line: string) returns (thrown: bool)
      requires Valid() && codeLang.Lang?
      modifies this
      ensures Valid() && renderedLen == old(renderedLen) && started == old(started)
      ensures thrown == Throws(old(State()), line)
      ensures State() == if thrown then old(State()) else Step(old(State()), line)
    {
      hide Classify, StepAs;
      StepInside(State(), line);
      thrown := false;
      if Trim(line) == FENCE {
        thrown := HighlightOpen();
        if thrown { return; }
        codeLang, codeText := NoCode, NoNode;
      } else {
        var at := codeText.at;
        var text := children[at].text + (if codeFirst then "" else [NL]) + line;
        children := children[at := Code(children[at].lang, text)];
        codeFirst := false;
      }
    }

    /** `mdAppendLine` once the line is known to be outside code and tables. */
    method AppendOther(line: string, trimmed: string)
      requires Valid() && codeLang == NoCode && tableEl == NoNode
      requires trimmed == Trim(line) && !IsTableRow(trimmed)
      modifies this
      ensures Valid() && renderedLen == old(renderedLen) && started == old(started)
      ensures State() == Step(old(State()), line)
    {
      StepOther(State(), line);
      if IsHeader(trimmed) {
        CloseList();
        var level := HeaderLevel(trimmed);
        AddBlock(Heading(level, trimmed[level + 1..]));
      } else if IsFence(trimmed) {
        CloseList();
        OpenCodeBlock(trimmed[3..]);
      } else if "- " <= trimmed {
        AddItem(trimmed[2..]);
      } else if IsNumbered(trimmed) {
        AddItem(NumberedText(trimmed));
      } else {
        CloseList();
        if |trimmed| == 0 { AddBlock(Break); } else { AddBlock(Paragraph(line)); }
      }
    }

    method AppendToTable(line: string, trimmed: string)
      requires Valid() && codeLang == NoCode
      requires trimmed == Trim(line) && IsTableRow(trimmed)
      modifies this
      ensures Valid() && renderedLen == old(renderedLen) && started == old(started)
      ensures State() == Step(old(State()), line)
    {
      if IsTableSeparator(trimmed) {
        tableHeader := true;
        return;
      }
      CloseList();
      AddRow(TableCells(trimmed));
    }

    /** `mdAppendLine`. */
    method AppendLine(line: string) returns (thrown: bool)
      requires Valid()
      modifies this
      ensures Valid() && renderedLen == old(renderedLen) && started == old(started)
      ensures thrown == Throws(old(State()), line)
      ensures State() == if thrown then old(State()) else Step(old(State()), line)
    {
      thrown := false;
      if codeLang.Lang? {
        thrown := CodeLine(line);
        return;
      }
      var trimmed := Trim(line);
      if IsTableRow(trimmed) {
        AppendToTable(line, trimmed);
        return;
      }
      ghost var md := State();
      CloseTable();
      if md.open.InTable? { StepClosesTable(md, line); }
      AppendOther(line, trimmed);
    }

    /** The loop over lines, which an exception leaves. */
    method AppendLines(lines: seq<string>) returns (thrown: bool)
      requires Valid()
      modifies this
      ensures Valid() && renderedLen == old(renderedLen) && started == old(started)
      ensures Reached(State(), thrown) == Feed(old(State()), lines)
    {
      hide Step, Throws;
      thrown := false;
      for i := 0 to |lines|
        invariant Valid() && renderedLen == old(renderedLen) && started == old(started)
        invariant Reached(State(), false) == Feed(old(State()), lines[..i])
      {
        thrown := AppendLine(lines[i]);
        assert lines[..i + 1][..i] == lines[..i];
        if thrown {
          assert lines == lines[..i + 1] + lines[i + 1..];
          FeedAppend(old(State()), lines[..i + 1], lines[i + 1..]);
          return;
        }
      }
      assert lines[..|lines|] == lines;
    }

    /** The view the element stands for; an element without a renderer starts afresh. */
    ghost function TheView(): (v: View)
      requires Valid()
      reads this
      ensures WellFormed(v.md)
    {
      if started then View(renderedLen, State()) else FRESH
    }

    /** `pending.lastIndexOf('\n') + 1`. */
    method FindCommit(pending: string) returns (n: nat)
      ensures n == CommitLength(pending)
    {
      n := |pending|;
      while n > 0 && pending[n - 1] != NL
        invariant n <= |pending|
        invariant CommitLength(pending) == CommitLength(pending[..n])
      {
        assert pending[..n][..n - 1] == pending[..n - 1];
        n := n - 1;
      }
      assert n > 0 ==> pending[..n][n - 1] == NL;
    }

    /** The reset both entry points start with. */
    method ResetIfShrunk(rawText: string)
      requires Valid() && started
      modifies this
      ensures Valid() && started && renderedLen <= |rawText|
      ensures TheView() == Restarted(old(TheView()), rawText)
    {
      if |rawText| < renderedLen {
        CreateIncrementalMd();
      }
    }

    /** Styles the complete lines of what is pending. */
    method CommitPending(pending: string) returns (thrown: bool)
      requires Valid() && started
      modifies this
      ensures Valid() && started
      ensures var n := CommitLength(pending);
              var fed := Feed(old(State()), CompleteLines(pending[..n]));
              if n == 0 then TheView() == old(TheView()) && !thrown
              else thrown == fed.thrown
                   && TheView() == View(old(renderedLen) + if thrown then 0 else n, fed.md)
    {
      hide Feed;
      var n := FindCommit(pending);
      if n == 0 { return false; }
      thrown := AppendLines(AllButLast(Split(pending[..n], NL)));
      if thrown { return; }
      renderedLen := renderedLen + n;
    }

    /** `renderIncrementalMarkdown`. */
    method RenderIncremental(rawText: string) returns (thrown: bool)
      requires Valid()
      modifies this
      ensures Valid() && started && Rendering(TheView(), thrown) == Render(old(TheView()), rawText)
    {
      hide Feed, CompleteLines;
      if !started {
        CreateIncrementalMd();
      }
      ResetIfShrunk(rawText);
      thrown := CommitPending(rawText[renderedLen..]);
    }

    /** Whatever is still open stops taking lines, an open code block only if it can be highlighted. */
    method CloseAll() returns (thrown: bool)
      requires Valid()
      modifies this
      ensures Valid() && started == old(started) && children == old(children)
      ensures thrown == Unfit(LanguageOf(old(State())))
      ensures !thrown ==> listEl == NoNode && tableEl == NoNode && codeLang == NoCode
    {
      thrown := false;
      CloseList();
      if codeLang == NoCode {
        CloseTable();
      } else {
        thrown := HighlightOpen();
        if thrown { return; }
        codeLang, codeText := NoCode, NoNode;
      }
    }

    /** `while (el.lastChild is a BR) el.lastChild.remove()`. */
    method RemoveBreaks()
      requires Valid() && listEl == NoNode && tableEl == NoNode && codeLang == NoCode
      modifies this`children
      ensures Valid() && children == StripBreaks(old(children))
    {
      while |children| > 0 && children[|children| - 1].Break?
        invariant Valid() && StripBreaks(children) == StripBreaks(old(children))
        decreases |children|
      {
        children := children[..|children| - 1];
      }
    }

    /** Styles all that is left, the part behind the last newline included. */
    method AppendPartial(partial: string) returns (thrown: bool)
      requires Valid()
      modifies this
      ensures Valid() && started == old(started)
      ensures Reached(State(), thrown) == Feed(old(State()), if partial == "" then [] else Split(partial, NL))
    {
      hide Feed;
      FeedNone(State());
      thrown := false;
      if partial != "" { thrown := AppendLines(Split(partial, NL)); }
    }

    /** `flushIncrementalMarkdown`, which does nothing before a first render. */
    method FlushIncremental(rawText: string) returns (thrown: bool)
      requires Valid()
      modifies this
      ensures Valid() && started == old(started)
      ensures Flushed(children, thrown)
           == if old(started) then Flush(old(TheView()), rawText) else Flushed(old(children), false)
    {
      hide Feed, StripBreaks, Unfit, Split, LanguageOf, WellFormed;
      thrown := false;
      if !started { return; }
      ResetIfShrunk(rawText);
      thrown := AppendPartial(rawText[renderedLen..]);
      if thrown { return; }
      thrown := CloseAll();
      if thrown { return; }
      RemoveBreaks();
      renderedLen := |rawText|;
    }
  }
}
