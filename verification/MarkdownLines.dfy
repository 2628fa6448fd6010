/**
 What one line of a message means (frontend/js/messages.js:1397-1450, 1475-1489, 1546-1629). Both
 renderers look at a line through these tests, in this order.
*/
module MarkdownLines {
  import opened Text

  const FENCE: string := "```"

  /** JavaScript's `\s`, which is also what `trim` removes. */
  predicate IsSpace(c: char) {
    || c == ' ' || ('\t' <= c <= '\r') || c == '\U{00A0}' || c == '\U{1680}'
    || ('\U{2000}' <= c <= '\U{200A}') || c == '\U{2028}' || c == '\U{2029}'
    || c == '\U{202F}' || c == '\U{205F}' || c == '\U{3000}' || c == '\U{FEFF}'
  }

  predicate IsDigit(c: char) { '0' <= c <= '9' }

  predicate IsWordChar(c: char) {
    ('A' <= c <= 'Z') || ('a' <= c <= 'z') || IsDigit(c) || c == '_'
  }

  /** The characters `.` does not match in a regular expression. */
  predicate IsLineTerminator(c: char) {
    c == '\n' || c == '\r' || c == '\U{2028}' || c == '\U{2029}'
  }

  /** `s.trim()`. */
  function Trim(s: string): (r: string)
    ensures |r| <= |s| && (|r| > 0 ==> !IsSpace(r[0]) && !IsSpace(r[|r| - 1]))
  {
    TrimBy(s, IsSpace)
  }

  // ---- the individual tests -------------------------------------------------------

  predicate IsTableRow(t: string) {
    |t| > 2 && t[0] == '|' && t[|t| - 1] == '|'
  }

  predicate IsSeparatorChar(c: char) { IsSpace(c) || c == '-' || c == ':' || c == '|' }

  predicate IsTableSeparator(t: string) {
    IsTableRow(t) && forall i :: 1 <= i < |t| - 1 ==> IsSeparatorChar(t[i])
  }

  function TrimAll(cells: seq<string>): (r: seq<string>)
    ensures |r| == |cells|
  {
    if |cells| == 0 then [] else [Trim(cells[0])] + TrimAll(cells[1..])
  }

  /** `t.slice(1, -1).split('|')`, each cell trimmed as it is rendered. */
  function TableCells(t: string): seq<string>
    requires IsTableRow(t)
  {
    TrimAll(Split(t[1..|t| - 1], '|'))
  }

  /** How many leading characters satisfy the test. */
  function Span(s: string, test: char -> bool): (n: nat)
    ensures n <= |s|
  {
    if |s| > 0 && test(s[0]) then 1 + Span(s[1..], test) else 0
  }

  lemma {:induction false} SpanStops(s: string, test: char -> bool)
    ensures var n := Span(s, test); (forall i :: 0 <= i < n ==> test(s[i])) && (n < |s| ==> !test(s[n]))
  {
    if |s| > 0 && test(s[0]) {
      SpanStops(s[1..], test);
    }
  }

  /** A run of characters followed by one that is not of the kind. */
  lemma {:induction false} SpanIs(s: string, test: char -> bool, n: nat)
    requires n <= |s| && (forall i :: 0 <= i < n ==> test(s[i])) && (n < |s| ==> !test(s[n]))
    ensures Span(s, test) == n
  {
    if n > 0 {
      SpanIs(s[1..], test, n - 1);
    }
  }

  function HeaderLevel(t: string): nat { Span(t, c => c == '#') }

  predicate IsHeader(t: string) {
    var n := HeaderLevel(t);
    0 < n < |t| && IsSpace(t[n])
  }

  predicate IsFence(t: string) {
    FENCE <= t && forall i :: 3 <= i < |t| ==> IsWordChar(t[i])
  }

  predicate IsNumbered(t: string) {
    var n := Span(t, IsDigit);
    0 < n && n + 1 < |t| && t[n] == '.' && IsSpace(t[n + 1])
  }

  /** The text of a numbered item: behind digits, dot and spaces, up to a line terminator. */
  function NumberedText(t: string): string
    requires IsNumbered(t)
  {
    var rest := t[Span(t, IsDigit) + 1..];
    var text := rest[Span(rest, IsSpace)..];
    text[..Span(text, c => !IsLineTerminator(c))]
  }

  // ---- the classification -----------------------------------------------------------

  datatype Kind =
    | Separator
    | TableRow(cells: seq<string>)
    | Header(level: nat, title: string)
    | Fence(lang: string)
    | Item(text: string)
    | Blank
    | Plain

  /** What a line means outside a code block; the tests are tried in the order of the code. */
  function Classify(line: string): Kind {
    var t := Trim(line);
    if IsTableRow(t) then (if IsTableSeparator(t) then Separator else TableRow(TableCells(t)))
    else if IsHeader(t) then Header(HeaderLevel(t), t[HeaderLevel(t) + 1..])
    else if IsFence(t) then Fence(t[3..])
    else if "- " <= t then Item(t[2..])
    else if IsNumbered(t) then Item(NumberedText(t))
    else if |t| == 0 then Blank
    else Plain
  }

  /** Inside a code block only the bare fence means anything. */
  predicate ClosesCode(line: string) { Trim(line) == FENCE }

  lemma EmptyLineIsBlank()
    ensures Classify("") == Blank && !ClosesCode("")
  {
  }
}
