/**
 Entity escaping as chains of whole-string replacements (frontend/js/utils.js:36-43,
 frontend/js/messages.js:1308-1315). Decoding undoes encoding on every string, because `&` is encoded
 first and decoded last.
*/
module Entities {

  /** `s.replace(/p/g, r)` for a literal, non-empty pattern: left to right, without overlap. */
  function ReplaceAll(s: string, p: string, r: string): string
    requires |p| > 0
  {
    if |s| == 0 then ""
    else if p <= s then r + ReplaceAll(s[|p|..], p, r)
    else [s[0]] + ReplaceAll(s[1..], p, r)
  }

  /** `OSA.escapeAttr`. */
  function EscapeAttr(s: string): string {
    var s1 := ReplaceAll(s, "&", "&amp;");
    var s2 := ReplaceAll(s1, "<", "&lt;");
    var s3 := ReplaceAll(s2, ">", "&gt;");
    var s4 := ReplaceAll(s3, "\"", "&quot;");
    ReplaceAll(s4, "'", "&#39;")
  }

  /** The escaping `highlightCode` uses, which leaves quotes alone (frontend/js/messages.js:1744-1746). */
  function EscapeText(s: string): string {
    var s1 := ReplaceAll(s, "&", "&amp;");
    var s2 := ReplaceAll(s1, "<", "&lt;");
    ReplaceAll(s2, ">", "&gt;")
  }

  /** `OSA.decodeEntities`. */
  function DecodeEntities(s: string): string {
    var s1 := ReplaceAll(s, "&lt;", "<");
    var s2 := ReplaceAll(s1, "&gt;", ">");
    var s3 := ReplaceAll(s2, "&quot;", "\"");
    var s4 := ReplaceAll(s3, "&#39;", "'");
    ReplaceAll(s4, "&amp;", "&")
  }

  // ---- character codes, the reference for both chains -----------------------------------

  type Coding = char -> string

  /** Every character replaced by its code. */
  function Flat(code: Coding, s: string): string {
    if |s| == 0 then "" else code(s[0]) + Flat(code, s[1..])
  }

  lemma {:induction false} FlatIdentity(code: Coding, s: string)
    requires forall c :: code(c) == [c]
    ensures Flat(code, s) == s
  {
    if |s| > 0 {
      FlatIdentity(code, s[1..]);
    }
  }

  lemma {:induction false} FlatConcat(code: Coding, a: string, b: string)
    ensures Flat(code, a + b) == Flat(code, a) + Flat(code, b)
  {
    if |a| == 0 {
      assert a + b == b;
    } else {
      assert (a + b)[1..] == a[1..] + b;
      FlatConcat(code, a[1..], b);
    }
  }

  /** Text without the pattern's first character is passed over. */
  lemma {:induction false} PassOver(a: string, rest: string, p: string, r: string)
    requires |p| > 0 && p[0] !in a
    ensures ReplaceAll(a + rest, p, r) == a + ReplaceAll(rest, p, r)
  {
    if |a| == 0 {
      assert a + rest == rest;
    } else {
      assert (a + rest)[1..] == a[1..] + rest;
      PassOver(a[1..], rest, p, r);
    }
  }

  lemma ReplaceHere(p: string, rest: string, r: string)
    requires |p| > 0
    ensures ReplaceAll(p + rest, p, r) == r + ReplaceAll(rest, p, r)
  {
    assert (p + rest)[|p|..] == rest;
  }

  /** Encoding one more character. */
  lemma {:induction false} Encode(code: Coding, c: char, e: string, code': Coding, s: string)
    requires code(c) == [c] && forall x :: x != c ==> c !in code(x)
    requires forall x :: code'(x) == if x == c then e else code(x)
    ensures ReplaceAll(Flat(code, s), [c], e) == Flat(code', s)
  {
    if |s| > 0 {
      var rest := Flat(code, s[1..]);
      Encode(code, c, e, code', s[1..]);
      if s[0] == c {
        ReplaceHere([c], rest, e);
      } else {
        PassOver(code(s[0]), rest, [c], e);
      }
    }
  }

  /** An entity: `&`, at least one more character, and no further `&`. */
  predicate IsEntity(e: string) { |e| >= 2 && e[0] == '&' && '&' !in e[1..] }

  /** Told apart from the entity `e` by its first two characters. */
  predicate Distinguished(code: string, c: char, e: string) {
    (code == [c] && c != '&') || (IsEntity(code) && IsEntity(e) && code[1] != e[1])
  }

  /** A character whose code is not the entity stays as it is. */
  lemma LeaveCode(code: string, c: char, rest: string, e: string, r: string)
    requires IsEntity(e) && Distinguished(code, c, e)
    ensures ReplaceAll(code + rest, e, r) == code + ReplaceAll(rest, e, r)
  {
    if code == [c] && c != '&' {
      PassOver(code, rest, e, r);
    } else {
      var t := code + rest;
      assert t[1] == code[1];
      assert !(e <= t);
      assert t[1..] == code[1..] + rest;
      PassOver(code[1..], rest, e, r);
      assert code == [code[0]] + code[1..];
    }
  }

  /** Decoding one entity, or finding none of it. */
  lemma {:induction false} Decode(code: Coding, e: string, r: string, code': Coding, s: string)
    requires IsEntity(e)
    requires forall x :: if code(x) == e then code'(x) == r else code'(x) == code(x) && Distinguished(code(x), x, e)
    ensures ReplaceAll(Flat(code, s), e, r) == Flat(code', s)
  {
    if |s| > 0 {
      var rest := Flat(code, s[1..]);
      Decode(code, e, r, code', s[1..]);
      if code(s[0]) == e {
        ReplaceHere(e, rest, r);
      } else {
        LeaveCode(code(s[0]), s[0], rest, e, r);
      }
    }
  }

  /** The code of a character once the first `n` entities of `&lt; &gt; &quot; &#39; &amp;` are decoded. */
  function Coded(n: nat, quotes: bool): Coding {
    (c: char) =>
      if c == '<' && n < 1 then "&lt;"
      else if c == '>' && n < 2 then "&gt;"
      else if c == '"' && quotes && n < 3 then "&quot;"
      else if c == '\'' && quotes && n < 4 then "&#39;"
      else if c == '&' && n < 5 then "&amp;"
      else [c]
  }

  lemma EscapeTextIsFlat(s: string)
    ensures EscapeText(s) == Flat(Coded(0, false), s)
  {
    var c0: Coding := c => [c];
    var c1: Coding := c => if c == '&' then "&amp;" else [c];
    var c2: Coding := c => if c == '&' then "&amp;" else if c == '<' then "&lt;" else [c];
    FlatIdentity(c0, s);
    Encode(c0, '&', "&amp;", c1, s);
    Encode(c1, '<', "&lt;", c2, s);
    Encode(c2, '>', "&gt;", Coded(0, false), s);
  }

  lemma EscapeAttrIsFlat(s: string)
    ensures EscapeAttr(s) == Flat(Coded(0, true), s)
  {
    hide ReplaceAll, Flat;
    var c3: Coding := c =>
      if c == '"' then "&quot;" else Coded(0, false)(c);
    EscapeTextIsFlat(s);
    Encode(Coded(0, false), '"', "&quot;", c3, s);
    Encode(c3, '\'', "&#39;", Coded(0, true), s);
  }

  /** The entities in decoding order, and what they stand for. */
  function Entity(n: nat): string
    requires n < 5
  {
    if n == 0 then "&lt;" else if n == 1 then "&gt;" else if n == 2 then "&quot;"
    else if n == 3 then "&#39;" else "&amp;"
  }

  function Meaning(n: nat): char
    requires n < 5
  {
    if n == 0 then '<' else if n == 1 then '>' else if n == 2 then '"' else if n == 3 then '\'' else '&'
  }

  lemma CodedNext(n: nat, quotes: bool, x: char)
    requires n < 5
    ensures var code, e := Coded(n, quotes)(x), Entity(n);
            if code == e then Coded(n + 1, quotes)(x) == [Meaning(n)]
            else Coded(n + 1, quotes)(x) == code && Distinguished(code, x, e)
  {
    EntitiesDiffer(n);
  }

  lemma EntitiesDiffer(n: nat)
    requires n < 5
    ensures IsEntity(Entity(n))
    ensures forall m: nat :: m < 5 && m != n ==> Entity(m)[1] != Entity(n)[1]
  {
  }

  lemma DecodeStep(n: nat, quotes: bool, s: string)
    requires n < 5
    ensures ReplaceAll(Flat(Coded(n, quotes), s), Entity(n), [Meaning(n)]) == Flat(Coded(n + 1, quotes), s)
  {
    EntitiesDiffer(n);
    forall x
      ensures var code, e := Coded(n, quotes)(x), Entity(n);
              if code == e then Coded(n + 1, quotes)(x) == [Meaning(n)]
              else Coded(n + 1, quotes)(x) == code && Distinguished(code, x, e)
    {
      CodedNext(n, quotes, x);
    }
    Decode(Coded(n, quotes), Entity(n), [Meaning(n)], Coded(n + 1, quotes), s);
  }

  lemma DecodeFlat(quotes: bool, s: string)
    ensures DecodeEntities(Flat(Coded(0, quotes), s)) == s
  {
    DecodeStep(0, quotes, s);
    DecodeStep(1, quotes, s);
    DecodeStep(2, quotes, s);
    DecodeStep(3, quotes, s);
    DecodeStep(4, quotes, s);
    FlatIdentity(Coded(5, quotes), s);
  }

  /** `decodeEntities(escapeAttr(s)) == s` for every string. */
  lemma DecodeUndoesEscapeAttr(s: string)
    ensures DecodeEntities(EscapeAttr(s)) == s
  {
    EscapeAttrIsFlat(s);
    DecodeFlat(true, s);
  }

  /** The same for the text escaping of the highlighter. */
  lemma DecodeUndoesEscapeText(s: string)
    ensures DecodeEntities(EscapeText(s)) == s
  {
    EscapeTextIsFlat(s);
    DecodeFlat(false, s);
  }

  /** What may stand inside a double- or single-quoted attribute: no quote, no angle bracket. */
  predicate AttributeSafe(s: string) {
    '"' !in s && '\'' !in s && '<' !in s && '>' !in s
  }

  lemma {:induction false} EscapeAttrIsSafe(s: string)
    ensures AttributeSafe(EscapeAttr(s))
  {
    EscapeAttrIsFlat(s);
    FlatSafe(s);
  }

  lemma {:induction false} FlatSafe(s: string)
    ensures AttributeSafe(Flat(Coded(0, true), s))
  {
    if |s| > 0 {
      FlatSafe(s[1..]);
      assert AttributeSafe(Coded(0, true)(s[0]));
    }
  }

  lemma EscapeTextConcat(a: string, b: string)
    ensures EscapeText(a + b) == EscapeText(a) + EscapeText(b)
  {
    EscapeTextIsFlat(a);
    EscapeTextIsFlat(b);
    EscapeTextIsFlat(a + b);
    FlatConcat(Coded(0, false), a, b);
  }

  lemma EscapeTextHasNoTags(s: string)
    ensures '<' !in EscapeText(s)
  {
    EscapeTextIsFlat(s);
    FlatHasNoTags(s);
  }

  lemma {:induction false} FlatHasNoTags(s: string)
    ensures '<' !in Flat(Coded(0, false), s)
  {
    if |s| > 0 {
      FlatHasNoTags(s[1..]);
      assert '<' !in Coded(0, false)(s[0]);
    }
  }
}
