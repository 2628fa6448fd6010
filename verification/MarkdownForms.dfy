/**
 How a line of a message is read (frontend/js/messages.js:1405-1450, 1475-1489, 1567-1629), by what it is
 composed of: each kind of line is characterised from both sides.
*/
module MarkdownForms {
  import opened Text
  import opened MarkdownLines

  // ---- trimming -------------------------------------------------------------------------

  predicate AllSpace(s: string) { forall i :: 0 <= i < |s| ==> IsSpace(s[i]) }

  /** `t` is `s` without the white space around it. */
  ghost predicate IsTrimmed(s: string, t: string) { TrimmedBy(s, t, IsSpace) }

  lemma TrimIs(s: string, t: string)
    ensures Trim(s) == t <==> IsTrimmed(s, t)
  {
    TrimByIs(s, t, IsSpace);
  }

  // ---- the forms ---------------------------------------------------------------------------

  /** Cells without a bar between bars; each is read without the white space around it. */
  ghost predicate RowForm(t: string, cells: seq<string>) {
    |t| > 2
    && exists pieces: seq<string> ::
         && |pieces| == |cells| > 0 && NoneContains(pieces, '|')
         && t == "|" + Join(pieces, '|') + "|"
         && forall i :: 0 <= i < |cells| ==> IsTrimmed(pieces[i], cells[i])
  }

  /** Nothing but dashes, colons, bars and white space between two bars. */
  predicate RuleForm(t: string) {
    && |t| > 2 && t[0] == '|' && t[|t| - 1] == '|'
    && forall i :: 1 <= i < |t| - 1 ==> IsSpace(t[i]) || t[i] == '-' || t[i] == ':' || t[i] == '|'
  }

  function Repeated(c: char, n: nat): (s: string)
    ensures |s| == n && forall i :: 0 <= i < n ==> s[i] == c
  {
    seq(n, i => c)
  }

  /** So many hashes, a space, and the title. */
  ghost predicate HeadForm(t: string, level: nat, title: string) {
    level > 0 && exists c :: IsSpace(c) && t == Repeated('#', level) + [c] + title
  }

  /** Three backquotes and a word, or nothing, behind them. */
  predicate FenceForm(t: string, lang: string) {
    t == "```" + lang && forall i :: 0 <= i < |lang| ==> IsWordChar(lang[i])
  }

  ghost predicate NumberForm(t: string, text: string) {
    exists digits: string, spaces: string, more: string ::
      && digits != "" && spaces != "" && AllSpace(spaces) && t == digits + "." + spaces + text + more
      && (forall i :: 0 <= i < |digits| ==> '0' <= digits[i] <= '9')
      && (text + more != "" ==> !IsSpace((text + more)[0]))
      && (forall i :: 0 <= i < |text| ==> !IsLineTerminator(text[i]))
      && (more != "" ==> IsLineTerminator(more[0]))
  }

  /** A dash and a space, or digits, a dot and spaces, before the text. */
  ghost predicate ItemForm(t: string, text: string) { t == "- " + text || NumberForm(t, text) }

  ghost predicate PlainForm(t: string) {
    && t != "" && !RuleForm(t)
    && (forall cells :: !RowForm(t, cells)) && (forall level, title :: !HeadForm(t, level, title))
    && (forall lang :: !FenceForm(t, lang)) && (forall text :: !ItemForm(t, text))
  }

  // ---- each test against its form --------------------------------------------------------------

  lemma {:induction false} CellsTrimmed(cells: seq<string>, i: nat)
    requires i < |cells|
    ensures TrimAll(cells)[i] == Trim(cells[i])
  {
    if i > 0 { CellsTrimmed(cells[1..], i - 1); }
  }

  lemma RowRead(t: string, cells: seq<string>)
    ensures IsTableRow(t) && TableCells(t) == cells <==> RowForm(t, cells)
  {
    hide Trim, IsTrimmed, Split, Join, TrimAll;
    if IsTableRow(t) && TableCells(t) == cells {
      var middle := t[1..|t| - 1];
      var pieces := Split(middle, '|');
      JoinSplit(middle, '|');
      SplitPartsFreeOfSeparator(middle, '|');
      assert t == "|" + middle + "|";
      forall i | 0 <= i < |cells| ensures IsTrimmed(pieces[i], cells[i]) {
        CellsTrimmed(pieces, i);
        TrimIs(pieces[i], cells[i]);
      }
      assert |pieces| == |cells| > 0 && NoneContains(pieces, '|') && t == "|" + Join(pieces, '|') + "|";
    }
    if RowForm(t, cells) {
      var pieces: seq<string> :| |pieces| == |cells| > 0 && NoneContains(pieces, '|')
        && t == "|" + Join(pieces, '|') + "|" && forall i :: 0 <= i < |cells| ==> IsTrimmed(pieces[i], cells[i]);
      SplitJoin(pieces, '|');
      assert t[1..|t| - 1] == Join(pieces, '|');
      forall i | 0 <= i < |cells| ensures TrimAll(pieces)[i] == cells[i] {
        CellsTrimmed(pieces, i);
        TrimIs(pieces[i], cells[i]);
      }
      assert TableCells(t) == cells;
    }
  }

  lemma RuleRead(t: string)
    ensures IsTableSeparator(t) <==> RuleForm(t)
  {
  }

  lemma HeadRead(t: string, level: nat, title: string)
    ensures IsHeader(t) && HeaderLevel(t) == level && t[level + 1..] == title <==> HeadForm(t, level, title)
  {
    hide Span;
    var hash := (c: char) => c == '#';
    SpanStops(t, c => c == '#');
    var n := HeaderLevel(t);
    if IsHeader(t) && n == level && t[level + 1..] == title {
      assert t == Repeated('#', level) + [t[level]] + title;
    }
    if HeadForm(t, level, title) {
      var c :| IsSpace(c) && t == Repeated('#', level) + [c] + title;
      assert t[level] == c;
      SpanIs(t, c => c == '#', level);
      assert t[level + 1..] == title;
    }
  }

  lemma FenceRead(t: string, lang: string)
    ensures IsFence(t) && t[3..] == lang <==> FenceForm(t, lang)
  {
    if IsFence(t) && t[3..] == lang { assert t == t[..3] + t[3..]; }
    if FenceForm(t, lang) { assert t[3..] == lang && t[..3] == "```"; }
  }

  lemma NumberComposed(digits: string, spaces: string, text: string, more: string)
    requires digits != "" && spaces != "" && AllSpace(spaces)
    requires forall i :: 0 <= i < |digits| ==> '0' <= digits[i] <= '9'
    requires text + more != "" ==> !IsSpace((text + more)[0])
    requires forall i :: 0 <= i < |text| ==> !IsLineTerminator(text[i])
    requires more != "" ==> IsLineTerminator(more[0])
    ensures NumberForm(digits + "." + spaces + text + more, text)
  {
  }

  lemma FourPieces(t: string, n: nat, m: nat, k: nat)
    requires n < |t| && t[n] == '.' && m <= |t| - n - 1 && k <= |t| - n - 1 - m
    ensures var rest := t[n + 1..]; var body := rest[m..];
            t == t[..n] + "." + rest[..m] + body[..k] + body[k..] && body[..k] + body[k..] == body
  {
  }

  /** What the tests of a numbered item have found. */
  lemma NumberFound(t: string)
    requires IsNumbered(t)
    ensures var n := Span(t, IsDigit); var rest := t[n + 1..]; var m := Span(rest, IsSpace);
            && n > 0 && n + 1 < |t| && t[n] == '.' && m > 0
            && (forall i :: 0 <= i < n ==> '0' <= t[..n][i] <= '9')
            && AllSpace(rest[..m]) && (m < |rest| ==> !IsSpace(rest[m]))
  {
    hide Span;
    var n := Span(t, IsDigit);
    SpanStops(t, IsDigit);
    SpanStops(t[n + 1..], IsSpace);
    assert t[n + 1..][0] == t[n + 1];
  }

  lemma LineStops(body: string)
    ensures var k := Span(body, c => !IsLineTerminator(c));
            && (forall i :: 0 <= i < k ==> !IsLineTerminator(body[..k][i]))
            && (body[k..] != "" ==> IsLineTerminator(body[k..][0]))
  {
    SpanStops(body, c => !IsLineTerminator(c));
  }

  lemma NumberSplits(t: string)
    requires IsNumbered(t)
    ensures NumberForm(t, NumberedText(t))
  {
    hide Span, NumberForm, IsSpace, IsLineTerminator, AllSpace, IsNumbered;
    NumberFound(t);
    var n := Span(t, IsDigit);
    var rest := t[n + 1..];
    var m := Span(rest, IsSpace);
    var body := rest[m..];
    LineStops(body);
    var k := Span(body, c => !IsLineTerminator(c));
    FourPieces(t, n, m, k);
    NumberComposed(t[..n], rest[..m], body[..k], body[k..]);
  }

  lemma NumberRead(t: string, digits: string, spaces: string, text: string, more: string)
    requires digits != "" && spaces != "" && AllSpace(spaces) && t == digits + "." + spaces + text + more
    requires forall i :: 0 <= i < |digits| ==> '0' <= digits[i] <= '9'
    requires text + more != "" ==> !IsSpace((text + more)[0])
    requires forall i :: 0 <= i < |text| ==> !IsLineTerminator(text[i])
    requires more != "" ==> IsLineTerminator(more[0])
    ensures IsNumbered(t) && NumberedText(t) == text
  {
    hide Span;
    var n := |digits|;
    assert t[n] == '.' && t[n + 1] == spaces[0];
    SpanIs(t, IsDigit, n);
    var rest := t[n + 1..];
    assert rest == spaces + (text + more);
    SpanIs(rest, IsSpace, |spaces|);
    var body := rest[|spaces|..];
    assert body == text + more;
    SpanIs(body, c => !IsLineTerminator(c), |text|);
    assert body[..|text|] == text;
  }

  lemma NumberedRead(t: string, text: string)
    ensures IsNumbered(t) && NumberedText(t) == text <==> NumberForm(t, text)
  {
    hide IsNumbered, NumberedText, IsSpace, IsLineTerminator;
    if IsNumbered(t) && NumberedText(t) == text {
      hide NumberForm;
      NumberSplits(t);
    }
    if NumberForm(t, text) {
      var digits: string, spaces: string, more: string :|
        && digits != "" && spaces != "" && AllSpace(spaces) && t == digits + "." + spaces + text + more
        && (forall i :: 0 <= i < |digits| ==> '0' <= digits[i] <= '9')
        && (text + more != "" ==> !IsSpace((text + more)[0]))
        && (forall i :: 0 <= i < |text| ==> !IsLineTerminator(text[i]))
        && (more != "" ==> IsLineTerminator(more[0]));
      NumberRead(t, digits, spaces, text, more);
    }
  }

  lemma DashRead(t: string, text: string)
    ensures "- " <= t && t[2..] == text <==> t == "- " + text
  {
    if "- " <= t && t[2..] == text { assert t == t[..2] + t[2..]; }
    if t == "- " + text { assert t[..2] == "- " && t[2..] == text; }
  }

  /** The forms start differently, so no line has two of them. */
  lemma FirstChars(t: string)
    ensures IsTableRow(t) ==> t[0] == '|'
    ensures IsHeader(t) ==> t[0] == '#'
    ensures IsFence(t) ==> t[0] == '`'
    ensures "- " <= t ==> t[0] == '-'
    ensures IsNumbered(t) ==> IsDigit(t[0])
  {
    if |t| > 0 {
      assert Span(t, c => c == '#') > 0 ==> t[0] == '#';
      assert Span(t, IsDigit) > 0 ==> IsDigit(t[0]);
    }
  }

  // ---- what a line means ------------------------------------------------------------------------

  /** `Classify` on a trimmed line. */
  lemma ClassifyIs(line: string)
    ensures var t := Trim(line);
            Classify(line) ==
            if IsTableRow(t) then (if IsTableSeparator(t) then Separator else TableRow(TableCells(t)))
            else if IsHeader(t) then Header(HeaderLevel(t), t[HeaderLevel(t) + 1..])
            else if IsFence(t) then Fence(t[3..])
            else if "- " <= t then Item(t[2..])
            else if IsNumbered(t) then Item(NumberedText(t))
            else if |t| == 0 then Blank
            else Plain
  {
  }

  lemma ReadsRow(line: string, cells: seq<string>)
    ensures Classify(line) == TableRow(cells) <==> RowForm(Trim(line), cells) && !RuleForm(Trim(line))
  {
    hide Classify, Trim, IsTableRow, TableCells, RowForm, RuleForm, IsHeader, IsFence, IsNumbered, IsTableSeparator;
    ClassifyIs(line);
    RowRead(Trim(line), cells);
    RuleRead(Trim(line));
  }

  lemma ReadsRule(line: string)
    ensures Classify(line) == Separator <==> RuleForm(Trim(line))
  {
    hide Classify, Trim, TableCells, RuleForm, IsHeader, IsFence, IsNumbered;
    ClassifyIs(line);
    RuleRead(Trim(line));
  }

  lemma ReadsHead(line: string, level: nat, title: string)
    ensures Classify(line) == Header(level, title) <==> HeadForm(Trim(line), level, title)
  {
    hide Classify, Trim, IsTableRow, TableCells, HeadForm, IsHeader, IsFence, IsNumbered, IsTableSeparator, HeaderLevel;
    ClassifyIs(line);
    FirstChars(Trim(line));
    HeadRead(Trim(line), level, title);
  }

  lemma ReadsFence(line: string, lang: string)
    ensures Classify(line) == Fence(lang) <==> FenceForm(Trim(line), lang)
  {
    hide Classify, Trim, IsTableRow, TableCells, FenceForm, IsHeader, IsFence, IsNumbered, IsTableSeparator;
    ClassifyIs(line);
    FirstChars(Trim(line));
    FenceRead(Trim(line), lang);
  }

  lemma ReadsItem(line: string, text: string)
    ensures Classify(line) == Item(text) <==> ItemForm(Trim(line), text)
  {
    hide Classify, Trim, IsTableRow, TableCells, NumberForm, IsHeader, IsFence, IsNumbered, IsTableSeparator,
      NumberedText;
    var t := Trim(line);
    ClassifyIs(line);
    FirstChars(t);
    DashRead(t, text);
    NumberedRead(t, text);
  }

  lemma ReadsBlank(line: string)
    ensures Classify(line) == Blank <==> AllSpace(line)
  {
    hide Classify, Trim, IsTableRow, TableCells, IsHeader, IsFence, IsNumbered, IsTableSeparator, AllSpace;
    var t := Trim(line);
    ClassifyIs(line);
    BlankForm(line);
    if t == "" { NothingIn(t); }
  }

  lemma NothingIn(t: string)
    requires t == ""
    ensures !IsTableRow(t) && !IsHeader(t) && !IsFence(t) && !IsNumbered(t) && !("- " <= t)
  {
  }

  /** A line is plain exactly when it is of no other form. */
  lemma ReadsPlain(line: string)
    ensures Classify(line) == Plain <==> PlainForm(Trim(line))
  {
    hide Classify, Trim, RowForm, RuleForm, HeadForm, FenceForm, ItemForm, AllSpace;
    var t, kind := Trim(line), Classify(line);
    ReadsBlank(line);
    TrimIs(line, "");
    ReadsRule(line);
    BlankForm(line);
    forall cells ensures kind == TableRow(cells) <==> RowForm(t, cells) && !RuleForm(t) { ReadsRow(line, cells); }
    forall level, title ensures kind == Header(level, title) <==> HeadForm(t, level, title) {
      ReadsHead(line, level, title);
    }
    forall lang ensures kind == Fence(lang) <==> FenceForm(t, lang) { ReadsFence(line, lang); }
    forall text ensures kind == Item(text) <==> ItemForm(t, text) { ReadsItem(line, text); }
  }

  lemma BlankForm(line: string)
    ensures Trim(line) == "" <==> AllSpace(line)
  {
    hide Trim;
    TrimIs(line, "");
    if AllSpace(line) { assert line == line + "" + "" && AllOf(line, IsSpace) && AllOf("", IsSpace); }
    if IsTrimmed(line, "") {
      var lead, trail :| AllOf(lead, IsSpace) && AllOf(trail, IsSpace) && line == lead + "" + trail;
      assert line == lead + trail;
    }
  }
}
