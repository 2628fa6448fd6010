/**
 `highlightCode` (frontend/js/messages.js:1731-1814): one pass over the raw text, escaping token by token.
 Nothing is lost: taking the tags out again and decoding gives back the input. Two language names make
 the keyword lookup fail.
*/
module CodeHighlight {
  import Text
  import opened Entities
  import opened MarkdownLines

  datatype Class = Comment | Str | Number | Keyword | NoClass

  datatype Token = Token(cls: Class, text: string)

  // ---- scanning --------------------------------------------------------------------

  /** First index from `j` on that fails the test, or the end. */
  function ScanWhile(code: string, j: nat, test: char -> bool): (r: nat)
    requires j <= |code|
    ensures j <= r <= |code| && (forall k :: j <= k < r ==> test(code[k])) && (r < |code| ==> !test(code[r]))
    decreases |code| - j
  {
    if j < |code| && test(code[j]) then ScanWhile(code, j + 1, test) else j
  }

  function LineEnd(code: string, i: nat): nat
    requires i <= |code|
  {
    ScanWhile(code, i, c => c != '\n')
  }

  /** The string loop: an escape takes two characters, and may take the index one past the end. */
  function StringScan(code: string, j: nat, quote: char): (r: nat)
    requires j <= |code| + 1
    ensures j <= r <= |code| + 1 && (r < |code| ==> code[r] == quote)
    decreases |code| + 1 - j
  {
    if j < |code| && code[j] != quote then StringScan(code, if code[j] == '\\' then j + 2 else j + 1, quote)
    else j
  }

  function StringEnd(code: string, i: nat): (r: nat)
    requires i < |code|
    ensures i < r <= |code| + 1
  {
    var j := StringScan(code, i + 1, code[i]);
    if j < |code| then j + 1 else j
  }

  function NumberEnd(code: string, i: nat): (r: nat)
    requires i < |code| && IsDigit(code[i])
    ensures i < r <= |code|
  {
    var j := ScanWhile(code, i, IsDigit);
    if j + 1 < |code| && code[j] == '.' && IsDigit(code[j + 1]) then ScanWhile(code, j + 1, IsDigit) else j
  }

  predicate IsWordStart(c: char) { ('A' <= c <= 'Z') || ('a' <= c <= 'z') || c == '_' }

  /** `isWordChar(code[k])`, false beyond either end. */
  predicate WordAt(code: string, k: int) { 0 <= k < |code| && IsWordChar(code[k]) }

  function LowerChar(c: char): char { if 'A' <= c <= 'Z' then (c as int + 32) as char else c }

  function Lower(s: string): string { seq(|s|, i requires 0 <= i < |s| => LowerChar(s[i])) }

  /** What `keywords[name]` finds in the object literal: a list of its own, something inherited, or nothing. */
  datatype Entry = Missing | Words(words: set<string>) | Inherited

  /** The names an object inherits, as far as they are in lower case: neither value has a `map`. */
  predicate IsInherited(name: string) { name == "constructor" || name == "__proto__" }

  function Lookup(name: string): Entry {
    if IsInherited(name) then Inherited
    else if name in {"c", "cpp", "python", "javascript", "rust", "java"} then Words(Keywords(name))
    else Missing
  }

  /** The keyword lists, already lowered. */
  function Keywords(name: string): set<string> {
    match name
    case "c" => {"int", "char", "void", "return", "if", "else", "for", "while", "include", "define",
                 "typedef", "struct", "const", "static"}
    case "cpp" => {"int", "char", "void", "return", "if", "else", "for", "while", "include", "define",
                   "class", "public", "private", "protected", "const", "static", "auto", "template"}
    case "python" => {"def", "return", "if", "else", "elif", "for", "while", "import", "from", "class",
                      "try", "except", "finally", "with", "as", "lambda", "yield"}
    case "javascript" => {"function", "return", "if", "else", "for", "while", "const", "let", "var", "class",
                          "import", "export", "async", "await", "try", "catch", "finally"}
    case "rust" => {"fn", "let", "mut", "pub", "use", "mod", "struct", "enum", "impl", "trait", "if", "else",
                    "match", "return", "const", "static"}
    case "java" => {"public", "private", "protected", "class", "interface", "void", "int", "string", "return",
                    "if", "else", "for", "while", "import", "package"}
    case _ => {}
  }

  /** The class of the token at `i` and the index the scan goes on from. */
  function TokenAt(code: string, keywords: set<string>, i: nat): (t: (Class, nat))
    requires i < |code|
    ensures i < t.1 <= |code| + 1
  {
    var ch := code[i];
    if ch == '/' && i + 1 < |code| && code[i + 1] == '/' then (Comment, LineEnd(code, i + 2))
    else if ch == '#' then
      if i == 0 || code[i - 1] == '\n' then (Comment, LineEnd(code, i + 1)) else (NoClass, i + 1)
    else if ch == '"' || ch == '\'' then (Str, StringEnd(code, i))
    else if IsDigit(ch) && !WordAt(code, i - 1) then
      if !WordAt(code, NumberEnd(code, i)) then (Number, NumberEnd(code, i)) else (NoClass, i + 1)
    else if IsWordStart(ch) && !WordAt(code, i - 1) then
      var j := ScanWhile(code, i + 1, IsWordChar);
      (if Lower(code[i..j]) in keywords then Keyword else NoClass, j)
    else (NoClass, i + 1)
  }

  /** `code.slice(i, j)`, where `j` may lie beyond the end. */
  function Slice(code: string, i: nat, j: nat): string
    requires i <= j && i <= |code|
  {
    code[i..if j <= |code| then j else |code|]
  }

  function Tokens(code: string, keywords: set<string>, i: nat): seq<Token>
    decreases |code| + 1 - i
  {
    if i >= |code| then []
    else
      var (cls, j) := TokenAt(code, keywords, i);
      [Token(cls, Slice(code, i, j))] + Tokens(code, keywords, j)
  }

  function Texts(tokens: seq<Token>): string {
    if |tokens| == 0 then "" else tokens[0].text + Texts(tokens[1..])
  }

  // ---- printing ------------------------------------------------------------------------

  function ClassName(cls: Class): string {
    match cls
    case Comment => "token-comment"
    case Str => "token-string"
    case Number => "token-number"
    case Keyword => "token-keyword"
    case NoClass => ""
  }

  function OpenTag(cls: Class): string { "<span class=\"" + ClassName(cls) + "\">" }

  const CLOSE_TAG: string := "</span>"

  function PrintToken(t: Token): string {
    if t.cls == NoClass then EscapeText(t.text) else OpenTag(t.cls) + EscapeText(t.text) + CLOSE_TAG
  }

  function Print(tokens: seq<Token>): string {
    if |tokens| == 0 then "" else PrintToken(tokens[0]) + Print(tokens[1..])
  }

  /** The markup, or the exception thrown on the way. */
  datatype Highlighted = Html(text: string) | TypeError

  /** `(keywords[lang.toLowerCase()] || []).map(...)` comes first; without it nothing is scanned. */
  function Highlight(code: string, lang: string): Highlighted {
    match Lookup(Lower(lang))
    case Missing => Html(Print(Tokens(code, {}, 0)))
    case Words(words) => Html(Print(Tokens(code, words, 0)))
    case Inherited => TypeError
  }

  /** `OSA.highlightCode`. */
  method HighlightCode(code: string, lang: string) returns (result: Highlighted)
    ensures result == Highlight(code, lang)
  {
    var entry := Lookup(Lower(lang));
    if entry.Inherited? { return TypeError; }
    var html := Scan(code, if entry.Words? then entry.words else {});
    return Html(html);
  }

  /** The loop over the raw text. */
  method Scan(code: string, langKeywords: set<string>) returns (html: string)
    ensures html == Print(Tokens(code, langKeywords, 0))
  {
    html := "";
    var i: nat := 0;
    while i < |code|
      invariant i <= |code| + 1
      invariant html + Print(Tokens(code, langKeywords, i)) == Print(Tokens(code, langKeywords, 0))
      decreases |code| + 1 - i
    {
      var cls, j := ScanToken(code, langKeywords, i);
      ghost var token, rest := Token(cls, Slice(code, i, j)), Tokens(code, langKeywords, j);
      PrintHead(token, rest);
      Text.Associative(html, PrintToken(token), Print(rest));
      html := html + PrintToken(Token(cls, Slice(code, i, j)));
      i := j;
    }
    assert html + "" == html;
  }

  lemma PrintHead(t: Token, rest: seq<Token>)
    ensures Print([t] + rest) == PrintToken(t) + Print(rest)
  {
    assert ([t] + rest)[1..] == rest;
  }

  /** The branches of the loop, with their inner scans. */
  method ScanToken(code: string, keywords: set<string>, i: nat) returns (cls: Class, j: nat)
    requires i < |code|
    ensures (cls, j) == TokenAt(code, keywords, i)
  {
    var ch := code[i];
    cls, j := NoClass, i + 1;
    if ch == '/' && i + 1 < |code| && code[i + 1] == '/' {
      cls := Comment;
      j := ScanLoop(code, i + 2, c => c != '\n');
    } else if ch == '#' {
      if i == 0 || code[i - 1] == '\n' {
        cls := Comment;
        j := ScanLoop(code, i + 1, c => c != '\n');
      }
    } else if ch == '"' || ch == '\'' {
      cls := Str;
      while j < |code| && code[j] != ch
        invariant j <= |code| + 1 && StringScan(code, j, ch) == StringScan(code, i + 1, ch)
        decreases |code| + 1 - j
      {
        if code[j] == '\\' { j := j + 1; }
        j := j + 1;
      }
      if j < |code| { j := j + 1; }
    } else if IsDigit(ch) && !WordAt(code, i - 1) {
      var k := ScanLoop(code, i, IsDigit);
      if k + 1 < |code| && code[k] == '.' && IsDigit(code[k + 1]) {
        k := ScanLoop(code, k + 1, IsDigit);
      }
      if !WordAt(code, k) {
        cls, j := Number, k;
      }
    } else if IsWordStart(ch) && !WordAt(code, i - 1) {
      j := ScanLoop(code, i + 1, IsWordChar);
      if Lower(code[i..j]) in keywords { cls := Keyword; }
    }
  }

  method ScanLoop(code: string, start: nat, test: char -> bool) returns (j: nat)
    requires start <= |code|
    ensures j == ScanWhile(code, start, test)
  {
    j := start;
    while j < |code| && test(code[j])
      invariant j <= |code| && ScanWhile(code, j, test) == ScanWhile(code, start, test)
    {
      j := j + 1;
    }
  }

  // ---- nothing is lost --------------------------------------------------------------------

  /** Removes everything between `<` and the next `>`, the brackets included. */
  function StripTags(html: string): string {
    if |html| == 0 then ""
    else if html[0] == '<' then StripTag(html[1..])
    else [html[0]] + StripTags(html[1..])
  }

  function StripTag(html: string): string {
    if |html| == 0 then ""
    else if html[0] == '>' then StripTags(html[1..])
    else StripTag(html[1..])
  }

  lemma {:induction false} StripPlain(text: string, rest: string)
    requires '<' !in text
    ensures StripTags(text + rest) == text + StripTags(rest)
  {
    if |text| == 0 {
      assert text + rest == rest;
    } else {
      assert (text + rest)[1..] == text[1..] + rest;
      StripPlain(text[1..], rest);
    }
  }

  lemma {:induction false} StripInside(inner: string, rest: string)
    requires '>' !in inner
    ensures StripTag(inner + ">" + rest) == StripTags(rest)
  {
    if |inner| == 0 {
      assert inner + ">" + rest == ">" + rest && (">" + rest)[1..] == rest;
    } else {
      assert (inner + ">" + rest)[1..] == inner[1..] + ">" + rest;
      StripInside(inner[1..], rest);
    }
  }

  lemma StripAnyTag(inner: string, rest: string)
    requires '>' !in inner
    ensures StripTags("<" + inner + ">" + rest) == StripTags(rest)
  {
    assert "<" + inner + ">" + rest == "<" + (inner + ">" + rest);
    assert ("<" + (inner + ">" + rest))[1..] == inner + ">" + rest;
    StripInside(inner, rest);
  }

  lemma ClassNameIsPlain(cls: Class)
    ensures '>' !in ClassName(cls)
  {
  }

  lemma StripOpenTag(cls: Class, rest: string)
    ensures StripTags(OpenTag(cls) + rest) == StripTags(rest)
  {
    hide StripTags, StripTag, ClassName;
    var inner := "span class=\"" + ClassName(cls) + "\"";
    ClassNameIsPlain(cls);
    assert '>' !in "span class=\"" && '>' !in "\"";
    assert OpenTag(cls) == "<" + inner + ">";
    StripAnyTag(inner, rest);
  }

  lemma StripCloseTag(rest: string)
    ensures StripTags(CLOSE_TAG + rest) == StripTags(rest)
  {
    hide StripTags, StripTag;
    assert CLOSE_TAG == "<" + "/span" + ">";
    StripAnyTag("/span", rest);
  }

  lemma StripToken(t: Token, rest: string)
    ensures StripTags(PrintToken(t) + rest) == EscapeText(t.text) + StripTags(rest)
  {
    var text := EscapeText(t.text);
    EscapeTextHasNoTags(t.text);
    if t.cls == NoClass {
      StripPlain(text, rest);
    } else {
      assert PrintToken(t) + rest == OpenTag(t.cls) + (text + (CLOSE_TAG + rest));
      StripOpenTag(t.cls, text + (CLOSE_TAG + rest));
      StripPlain(text, CLOSE_TAG + rest);
      StripCloseTag(rest);
    }
  }

  lemma {:induction false} StripPrinted(tokens: seq<Token>)
    ensures StripTags(Print(tokens)) == EscapeText(Texts(tokens))
  {
    if |tokens| > 0 {
      StripToken(tokens[0], Print(tokens[1..]));
      StripPrinted(tokens[1..]);
      EscapeTextConcat(tokens[0].text, Texts(tokens[1..]));
    }
  }

  lemma {:induction false} TokensCoverCode(code: string, keywords: set<string>, i: nat)
    requires i <= |code|
    ensures Texts(Tokens(code, keywords, i)) == code[i..]
    decreases |code| - i
  {
    if i < |code| {
      var (cls, j) := TokenAt(code, keywords, i);
      var rest := Tokens(code, keywords, j);
      assert ([Token(cls, Slice(code, i, j))] + rest)[1..] == rest;
      if j <= |code| {
        TokensCoverCode(code, keywords, j);
        assert code[i..] == code[i..j] + code[j..];
      } else {
        assert rest == [] && Slice(code, i, j) == code[i..];
      }
    }
  }

  lemma ScanIsLossless(code: string, keywords: set<string>)
    ensures DecodeEntities(StripTags(Print(Tokens(code, keywords, 0)))) == code
  {
    StripPrinted(Tokens(code, keywords, 0));
    TokensCoverCode(code, keywords, 0);
    DecodeUndoesEscapeText(code);
  }

  /**
   Highlighting gives markup that loses nothing, unterminated strings included, for every language but
   the two names that the keyword table inherits.
  */
  lemma HighlightIsLossless(code: string, lang: string)
    ensures var r := Highlight(code, lang);
            r.Html? && DecodeEntities(StripTags(r.text)) == code
            <==> Lower(lang) != "constructor" && Lower(lang) != "__proto__"
  {
    hide Keywords;
    match Lookup(Lower(lang))
    case Missing => ScanIsLossless(code, {});
    case Words(words) => ScanIsLossless(code, words);
    case Inherited =>
  }

  /** A line of a message that gets there: a fence with such a name, in any case. */
  lemma ConstructorFence(code: string)
    ensures Classify("```constructor") == Fence("constructor") && Highlight(code, "constructor") == TypeError
    ensures Highlight(code, "__Proto__") == TypeError
  {
    assert Lower("constructor") == "constructor" && Lower("__Proto__") == "__proto__";
    FenceIs("```constructor");
  }

  /** A trimmed line of three backticks and word characters opens a code block. */
  lemma FenceIs(t: string)
    requires |t| > 3 && t[0] == t[1] == t[2] == '`' && forall i :: 3 <= i < |t| ==> IsWordChar(t[i])
    ensures Classify(t) == Fence(t[3..])
  {
    assert t[..3] == "```";
    assert Trim(t) == t;
  }

  /** What each highlighted token is: comments stay on their line, keywords and numbers are whole words. */
  lemma TokenShape(code: string, keywords: set<string>, i: nat)
    requires i < |code|
    ensures var (cls, j) := TokenAt(code, keywords, i);
            && (cls == Comment ==> '\n' !in Slice(code, i, j) && (j < |code| ==> code[j] == '\n'))
            && (cls == Keyword || cls == Number ==> !WordAt(code, i - 1) && !WordAt(code, j) && j <= |code|)
            && (cls == Keyword ==> Lower(code[i..j]) in keywords && forall k :: i <= k < j ==> IsWordChar(code[k]))
            && (cls == Str ==> (code[i] == '"' || code[i] == '\'') && (j < |code| ==> code[j - 1] == code[i]))
            && (cls == NoClass && j > i + 1 ==> Lower(code[i..j]) !in keywords)
  {
  }
}
