/**
 What `highlightCode` has to highlight (frontend/js/messages.js:1731-1814), by rules that do not scan: when
 a comment, a string, a number or a word starts at a place, and where it ends. The tokens follow the rules at
 every place the scan comes to, and no other tokens do.
*/
module HighlightRules {
  import opened MarkdownLines
  import opened Entities
  import opened CodeHighlight

  // ---- the rules -----------------------------------------------------------------------

  /** Two slashes anywhere, or a hash at the start of a line. */
  predicate StartsComment(code: string, i: nat)
    requires i < |code|
  {
    || (code[i] == '/' && i + 1 < |code| && code[i + 1] == '/')
    || (code[i] == '#' && (i == 0 || code[i - 1] == '\n'))
  }

  /** From `i` to the end of its line. */
  predicate RestOfLine(code: string, i: nat, e: nat) {
    i < e <= |code| && (forall k :: i <= k < e ==> code[k] != '\n') && (e < |code| ==> code[e] == '\n')
  }

  predicate IsQuote(c: char) { c == '"' || c == '\'' }

  /** How many backslashes stand directly before `k`, not looking before `lo`. */
  function Backslashes(code: string, lo: nat, k: nat): nat
    requires k <= |code|
  {
    if k > lo && code[k - 1] == '\\' then 1 + Backslashes(code, lo, k - 1) else 0
  }

  /** The quote at `k` ends the string that starts at `i`: it is the same and not escaped. */
  predicate Closes(code: string, i: nat, k: nat)
    requires i < |code|
  {
    i < k < |code| && code[k] == code[i] && Backslashes(code, i + 1, k) % 2 == 0
  }

  /** Up to and including the first quote that closes, or all the rest. */
  ghost predicate QuotedTo(code: string, i: nat, e: nat)
    requires i < |code|
  {
    if exists k: nat :: Closes(code, i, k)
    then i < e <= |code| && Closes(code, i, e - 1) && forall k: nat :: k < e - 1 ==> !Closes(code, i, k)
    else e == |code|
  }

  /** A run of digits that ends at `e`. */
  predicate DigitsTo(code: string, i: nat, e: nat) {
    i < e <= |code| && (forall k :: i <= k < e ==> '0' <= code[k] <= '9') && (e < |code| ==> !IsDigit(code[e]))
  }

  predicate PointAt(code: string, m: nat) {
    m + 1 < |code| && code[m] == '.' && '0' <= code[m + 1] <= '9'
  }

  /** Digits, and if a point and a digit follow, those too; no word character on either side. */
  ghost predicate WholeNumber(code: string, i: nat, e: nat) {
    && !WordAt(code, i - 1) && !WordAt(code, e)
    && exists m: nat :: DigitsTo(code, i, m) && if PointAt(code, m) then DigitsTo(code, m + 1, e) else e == m
  }

  /** Letters, digits and underscores from a letter or underscore on; no word character on either side. */
  predicate WholeWord(code: string, i: nat, e: nat) {
    && i < e <= |code| && (IsWordChar(code[i]) && !IsDigit(code[i]))
    && (forall k :: i <= k < e ==> IsWordChar(code[k])) && !WordAt(code, i - 1) && !WordAt(code, e)
  }

  /** What starts at `i`: its class, and where it ends. */
  ghost predicate Follows(code: string, words: set<string>, i: nat, cls: Class, e: nat)
    requires i < |code|
  {
    if StartsComment(code, i) then cls == Comment && RestOfLine(code, i, e)
    else if IsQuote(code[i]) then cls == Str && QuotedTo(code, i, e)
    else if exists m :: WholeNumber(code, i, m) then cls == Number && WholeNumber(code, i, e)
    else if exists m :: WholeWord(code, i, m) then
      WholeWord(code, i, e) && cls == if Lower(code[i..e]) in words then Keyword else NoClass
    else cls == NoClass && e == i + 1
  }

  /** Tokens from `i` to the end, each as the rules say. */
  ghost predicate Reading(code: string, words: set<string>, tokens: seq<Token>, i: nat)
    requires i <= |code|
    decreases |tokens|
  {
    if i == |code| then tokens == []
    else
      && |tokens| > 0
      && exists e :: i < e <= |code| && tokens[0].text == code[i..e]
           && Follows(code, words, i, tokens[0].cls, e) && Reading(code, words, tokens[1..], e)
  }

  // ---- the scan follows the rules ----------------------------------------------------------

  /** No quote closes before `j`, and at `j` no escape is pending. */
  predicate Unclosed(code: string, i: nat, j: nat)
    requires i < |code|
  {
    && i < j <= |code| && Backslashes(code, i + 1, j) % 2 == 0
    && forall k: nat :: k < j ==> !Closes(code, i, k)
  }

  lemma {:induction false} ScanQuoted(code: string, i: nat, j: nat)
    requires i < |code| && IsQuote(code[i]) && Unclosed(code, i, j)
    ensures var r := StringScan(code, j, code[i]);
            && (forall k: nat :: k < r ==> !Closes(code, i, k))
            && (r < |code| ==> Closes(code, i, r))
    decreases |code| - j
  {
    if j < |code| && code[j] != code[i] {
      if code[j] == '\\' {
        if j + 1 < |code| {
          assert Backslashes(code, i + 1, j + 1) == 1 + Backslashes(code, i + 1, j);
          assert !Closes(code, i, j) && !Closes(code, i, j + 1);
          ScanQuoted(code, i, j + 2);
        } else {
          assert StringScan(code, j, code[i]) == j + 2;
        }
      } else {
        ScanQuoted(code, i, j + 1);
      }
    }
  }

  lemma QuotedScan(code: string, i: nat)
    requires i < |code| && IsQuote(code[i])
    ensures var j := StringEnd(code, i); QuotedTo(code, i, if j <= |code| then j else |code|)
  {
    hide StringScan;
    assert forall k: nat :: k < i + 1 ==> !Closes(code, i, k);
    ScanQuoted(code, i, i + 1);
  }

  lemma NumberScan(code: string, i: nat)
    requires i < |code| && IsDigit(code[i])
    ensures exists m: nat ::
              DigitsTo(code, i, m)
              && if PointAt(code, m) then DigitsTo(code, m + 1, NumberEnd(code, i)) else NumberEnd(code, i) == m
  {
    hide ScanWhile;
    var m := ScanWhile(code, i, IsDigit);
    assert DigitsTo(code, i, m);
  }

  lemma NumberOnce(code: string, i: nat, d: nat, e: nat)
    requires WholeNumber(code, i, d) && WholeNumber(code, i, e)
    ensures d == e
  {
    var m: nat :| DigitsTo(code, i, m) && if PointAt(code, m) then DigitsTo(code, m + 1, d) else d == m;
    var n: nat :| DigitsTo(code, i, n) && if PointAt(code, n) then DigitsTo(code, n + 1, e) else e == n;
    DigitsOnce(code, i, m, n);
    if PointAt(code, m) { DigitsOnce(code, m + 1, d, e); }
  }

  lemma DigitsOnce(code: string, i: nat, d: nat, e: nat)
    requires DigitsTo(code, i, d) && DigitsTo(code, i, e)
    ensures d == e
  {
  }

  /** A number starts at `i` exactly where the scan takes one. */
  lemma NumberStarts(code: string, i: nat)
    requires i < |code|
    ensures (exists m :: WholeNumber(code, i, m))
            <==> IsDigit(code[i]) && !WordAt(code, i - 1) && !WordAt(code, NumberEnd(code, i))
    ensures IsDigit(code[i]) && !WordAt(code, i - 1) && !WordAt(code, NumberEnd(code, i)) ==>
              WholeNumber(code, i, NumberEnd(code, i))
  {
    hide NumberEnd;
    if IsDigit(code[i]) {
      NumberScan(code, i);
      assert !WordAt(code, i - 1) && !WordAt(code, NumberEnd(code, i)) ==> WholeNumber(code, i, NumberEnd(code, i));
    }
    if m :| WholeNumber(code, i, m) {
      var n: nat :| DigitsTo(code, i, n) && if PointAt(code, n) then DigitsTo(code, n + 1, m) else m == n;
      assert '0' <= code[i] <= '9';
      var e := NumberEnd(code, i);
      var k: nat :| DigitsTo(code, i, k) && if PointAt(code, k) then DigitsTo(code, k + 1, e) else e == k;
      DigitsOnce(code, i, n, k);
      if PointAt(code, k) { DigitsOnce(code, k + 1, e, m); }
    }
  }

  lemma WordStarts(code: string, i: nat)
    requires i < |code|
    ensures (exists m :: WholeWord(code, i, m)) <==> IsWordStart(code[i]) && !WordAt(code, i - 1)
    ensures IsWordStart(code[i]) && !WordAt(code, i - 1) ==> WholeWord(code, i, ScanWhile(code, i + 1, IsWordChar))
  {
    hide ScanWhile;
    var e := ScanWhile(code, i + 1, IsWordChar);
    assert IsWordStart(code[i]) <==> IsWordChar(code[i]) && !IsDigit(code[i]);
    assert WordAt(code, e) <==> e < |code| && IsWordChar(code[e]);
    if IsWordStart(code[i]) && !WordAt(code, i - 1) {
      assert WholeWord(code, i, e);
    }
  }

  lemma WordOnce(code: string, i: nat, d: nat, e: nat)
    requires WholeWord(code, i, d) && WholeWord(code, i, e)
    ensures d == e
  {
  }

  /** The rules decide class and end. */
  lemma FollowsOnce(code: string, words: set<string>, i: nat, c: Class, d: nat, cls: Class, e: nat)
    requires i < |code| && Follows(code, words, i, c, d) && Follows(code, words, i, cls, e)
    ensures c == cls && d == e
  {
    hide WholeNumber, WholeWord, Closes, Lower;
    if StartsComment(code, i) {
    } else if IsQuote(code[i]) {
    } else if exists m :: WholeNumber(code, i, m) {
      NumberOnce(code, i, d, e);
    } else if exists m :: WholeWord(code, i, m) {
      WordOnce(code, i, d, e);
    }
  }

  lemma CommentScan(code: string, i: nat, from: nat)
    requires i < from <= |code| && forall k :: i <= k < from ==> code[k] != '\n'
    ensures RestOfLine(code, i, LineEnd(code, from))
  {
    hide ScanWhile;
  }

  /** The scan follows the rules wherever it comes. */
  lemma TokenFollows(code: string, words: set<string>, i: nat)
    requires i < |code|
    ensures var (cls, j) := TokenAt(code, words, i);
            Follows(code, words, i, cls, if j <= |code| then j else |code|)
  {
    hide WholeNumber, WholeWord, QuotedTo, NumberEnd, StringEnd, LineEnd, ScanWhile, RestOfLine, Lower;
    NumberStarts(code, i);
    WordStarts(code, i);
    if StartsComment(code, i) {
      CommentScan(code, i, if code[i] == '/' then i + 2 else i + 1);
      LineEndWithin(code, if code[i] == '/' then i + 2 else i + 1);
    } else if IsQuote(code[i]) {
      QuotedScan(code, i);
    }
  }

  lemma LineEndWithin(code: string, from: nat)
    requires from <= |code|
    ensures LineEnd(code, from) <= |code|
  {
  }

  lemma {:induction false} TokensRead(code: string, words: set<string>, i: nat)
    requires i <= |code|
    ensures Reading(code, words, Tokens(code, words, i), i)
    decreases |code| - i
  {
    if i < |code| {
      hide TokenAt, Follows;
      var (cls, j) := TokenAt(code, words, i);
      var e := if j <= |code| then j else |code|;
      TokenFollows(code, words, i);
      TokensRead(code, words, e);
      assert Tokens(code, words, j) == Tokens(code, words, e);
      assert Tokens(code, words, i) == [Token(cls, code[i..e])] + Tokens(code, words, e);
      assert Tokens(code, words, i)[1..] == Tokens(code, words, e);
    }
  }

  /** Only one sequence of tokens follows the rules. */
  lemma {:induction false} ReadOnce(code: string, words: set<string>, a: seq<Token>, b: seq<Token>, i: nat)
    requires i <= |code| && Reading(code, words, a, i) && Reading(code, words, b, i)
    ensures a == b
    decreases |code| - i
  {
    if i < |code| {
      hide Follows;
      var d :| i < d <= |code| && a[0].text == code[i..d]
        && Follows(code, words, i, a[0].cls, d) && Reading(code, words, a[1..], d);
      var e :| i < e <= |code| && b[0].text == code[i..e]
        && Follows(code, words, i, b[0].cls, e) && Reading(code, words, b[1..], e);
      FollowsOnce(code, words, i, a[0].cls, d, b[0].cls, e);
      ReadOnce(code, words, a[1..], b[1..], d);
      assert a == [a[0]] + a[1..] && b == [b[0]] + b[1..];
    }
  }

  // ---- the markup -----------------------------------------------------------------------------

  /** A token as it is printed, with the name of its class. */
  predicate Marked(t: Token, html: string) {
    match t.cls
    case Comment => html == "<span class=\"token-comment\">" + EscapeText(t.text) + "</span>"
    case Str => html == "<span class=\"token-string\">" + EscapeText(t.text) + "</span>"
    case Number => html == "<span class=\"token-number\">" + EscapeText(t.text) + "</span>"
    case Keyword => html == "<span class=\"token-keyword\">" + EscapeText(t.text) + "</span>"
    case NoClass => html == EscapeText(t.text)
  }

  function Joined(parts: seq<string>): string { if |parts| == 0 then "" else parts[0] + Joined(parts[1..]) }

  lemma OpenTags(cls: Class)
    ensures match cls
            case Comment => OpenTag(cls) == "<span class=\"token-comment\">"
            case Str => OpenTag(cls) == "<span class=\"token-string\">"
            case Number => OpenTag(cls) == "<span class=\"token-number\">"
            case Keyword => OpenTag(cls) == "<span class=\"token-keyword\">"
            case NoClass => true
  {
  }

  lemma PrintMarks(t: Token)
    ensures Marked(t, PrintToken(t))
  {
    hide OpenTag;
    OpenTags(t.cls);
  }

  function Printed(tokens: seq<Token>): (parts: seq<string>)
    ensures |parts| == |tokens|
  {
    seq(|tokens|, k requires 0 <= k < |tokens| => PrintToken(tokens[k]))
  }

  lemma {:induction false} PrintIsJoined(tokens: seq<Token>)
    ensures Print(tokens) == Joined(Printed(tokens))
  {
    if |tokens| > 0 {
      PrintIsJoined(tokens[1..]);
      assert Printed(tokens)[1..] == Printed(tokens[1..]);
    }
  }

  /**
   Highlighting prints the one reading of the code by the rules, token by token. The words are those of the
   language, none for a language without a list.
  */
  lemma HighlightFollowsRules(code: string, lang: string)
    requires Highlight(code, lang).Html?
    ensures var entry := Lookup(Lower(lang));
            var words := if entry.Words? then entry.words else {};
            exists tokens: seq<Token>, parts: seq<string> ::
              && Reading(code, words, tokens, 0)
              && |parts| == |tokens| && (forall k :: 0 <= k < |tokens| ==> Marked(tokens[k], parts[k]))
              && Highlight(code, lang).text == Joined(parts)
  {
    hide Lookup, Tokens, Reading, Marked, PrintToken;
    var entry := Lookup(Lower(lang));
    var words := if entry.Words? then entry.words else {};
    var tokens := Tokens(code, words, 0);
    TokensRead(code, words, 0);
    forall k | 0 <= k < |tokens| ensures Marked(tokens[k], Printed(tokens)[k]) { PrintMarks(tokens[k]); }
    PrintIsJoined(tokens);
  }

  /** The words of each language, and no list for any other name. */
  lemma WordLists(name: string)
    ensures Lookup("c") == Words({"int", "char", "void", "return", "if", "else", "for", "while", "include", "define",
                                  "typedef", "struct", "const", "static"})
    ensures Lookup("cpp") == Words({"int", "char", "void", "return", "if", "else", "for", "while", "include", "define",
                                    "class", "public", "private", "protected", "const", "static", "auto", "template"})
    ensures Lookup("python") == Words({"def", "return", "if", "else", "elif", "for", "while", "import", "from", "class",
                                       "try", "except", "finally", "with", "as", "lambda", "yield"})
    ensures Lookup("javascript") == Words({"function", "return", "if", "else", "for", "while", "const", "let", "var",
                                           "class", "import", "export", "async", "await", "try", "catch", "finally"})
    ensures Lookup("rust") == Words({"fn", "let", "mut", "pub", "use", "mod", "struct", "enum", "impl", "trait", "if",
                                     "else", "match", "return", "const", "static"})
    ensures Lookup("java") == Words({"public", "private", "protected", "class", "interface", "void", "int", "string",
                                     "return", "if", "else", "for", "while", "import", "package"})
    ensures Lookup(name).Words? <==> name == "c" || name == "cpp" || name == "python" || name == "javascript"
                                     || name == "rust" || name == "java"
  {
  }
}
