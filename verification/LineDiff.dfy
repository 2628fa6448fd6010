/**
 The line diff (frontend/js/diff-core.js): trim a common prefix and suffix, tabulate LCS lengths
 backwards, walk the table greedily, number the lines.
*/
module LineDiff {
  import opened Text
  import Lcs

  datatype Kind = Ctx | Del | Add

  datatype Edit = Edit(kind: Kind, text: string)

  /** A line number, absent (JavaScript `null`) on the side the line does not belong to. */
  datatype LineNo = Absent | At(no: nat)

  datatype Line = Line(kind: Kind, text: string, oldNo: LineNo, newNo: LineNo)

  // ---- edit scripts, the reference for what a diff means ------------------

  function OldSide(s: seq<Edit>): seq<string> {
    if |s| == 0 then []
    else (if s[0].kind == Add then [] else [s[0].text]) + OldSide(s[1..])
  }

  function NewSide(s: seq<Edit>): seq<string> {
    if |s| == 0 then []
    else (if s[0].kind == Del then [] else [s[0].text]) + NewSide(s[1..])
  }

  function Kept(s: seq<Edit>): nat {
    if |s| == 0 then 0 else (if s[0].kind == Ctx then 1 else 0) + Kept(s[1..])
  }

  ghost predicate Transforms(s: seq<Edit>, a: seq<string>, b: seq<string>) {
    OldSide(s) == a && NewSide(s) == b
  }

  /** Changed lines of a script: what a reader of the diff has to look at. */
  function Changes(s: seq<Edit>): nat {
    if |s| == 0 then 0 else (if s[0].kind == Ctx then 0 else 1) + Changes(s[1..])
  }

  /** No script between the same texts changes fewer lines. */
  ghost predicate Minimal(s: seq<Edit>) {
    forall t: seq<Edit> :: Transforms(t, OldSide(s), NewSide(s)) ==> Changes(s) <= Changes(t)
  }

  lemma SidesConcat(s: seq<Edit>, t: seq<Edit>)
    ensures OldSide(s + t) == OldSide(s) + OldSide(t)
    ensures NewSide(s + t) == NewSide(s) + NewSide(t)
    ensures Kept(s + t) == Kept(s) + Kept(t)
  {
    OldConcat(s, t);
    NewConcat(s, t);
    KeptConcat(s, t);
  }

  lemma {:induction false} OldConcat(s: seq<Edit>, t: seq<Edit>)
    ensures OldSide(s + t) == OldSide(s) + OldSide(t)
  {
    if |s| == 0 {
      assert s + t == t;
    } else {
      var first := if s[0].kind == Add then [] else [s[0].text];
      assert (s + t)[1..] == s[1..] + t;
      OldConcat(s[1..], t);
      Associative(first, OldSide(s[1..]), OldSide(t));
    }
  }

  lemma {:induction false} NewConcat(s: seq<Edit>, t: seq<Edit>)
    ensures NewSide(s + t) == NewSide(s) + NewSide(t)
  {
    if |s| == 0 {
      assert s + t == t;
    } else {
      var first := if s[0].kind == Del then [] else [s[0].text];
      assert (s + t)[1..] == s[1..] + t;
      NewConcat(s[1..], t);
      Associative(first, NewSide(s[1..]), NewSide(t));
    }
  }

  lemma {:induction false} KeptConcat(s: seq<Edit>, t: seq<Edit>)
    ensures Kept(s + t) == Kept(s) + Kept(t)
  {
    if |s| == 0 {
      assert s + t == t;
    } else {
      KeptConcat(s[1..], t);
      assert (s + t)[1..] == s[1..] + t;
    }
  }

  function Block(kind: Kind, texts: seq<string>): (s: seq<Edit>)
    ensures |s| == |texts|
  {
    seq(|texts|, i requires 0 <= i < |texts| => Edit(kind, texts[i]))
  }

  lemma {:induction false} BlockSides(kind: Kind, texts: seq<string>)
    ensures OldSide(Block(kind, texts)) == (if kind == Add then [] else texts)
    ensures NewSide(Block(kind, texts)) == (if kind == Del then [] else texts)
    ensures Kept(Block(kind, texts)) == if kind == Ctx then |texts| else 0
  {
    if |texts| > 0 {
      assert Block(kind, texts)[1..] == Block(kind, texts[1..]);
      BlockSides(kind, texts[1..]);
    }
  }

  // ---- every script is bounded by the LCS --------------------------------

  function KeptTexts(s: seq<Edit>): seq<string> {
    if |s| == 0 then []
    else (if s[0].kind == Ctx then [s[0].text] else []) + KeptTexts(s[1..])
  }

  lemma {:induction false} KeptIsCommon(s: seq<Edit>)
    ensures |KeptTexts(s)| == Kept(s)
    ensures Lcs.IsSubsequence(KeptTexts(s), OldSide(s))
    ensures Lcs.IsSubsequence(KeptTexts(s), NewSide(s))
    ensures Changes(s) + 2 * Kept(s) == |OldSide(s)| + |NewSide(s)|
  {
    if |s| > 0 {
      var rest := s[1..];
      KeptIsCommon(rest);
      if s[0].kind == Ctx {
        Extend(s[0].text, KeptTexts(rest), OldSide(rest));
        Extend(s[0].text, KeptTexts(rest), NewSide(rest));
      } else {
        assert [] + KeptTexts(rest) == KeptTexts(rest);
        Skip(s[0].text, KeptTexts(rest), OldSide(rest));
        Skip(s[0].text, KeptTexts(rest), NewSide(rest));
        assert [] + OldSide(rest) == OldSide(rest) && [] + NewSide(rest) == NewSide(rest);
      }
    }
  }

  lemma Extend(e: string, c: seq<string>, s: seq<string>)
    requires Lcs.IsSubsequence(c, s)
    ensures Lcs.IsSubsequence([e] + c, [e] + s)
  {
    assert ([e] + c)[1..] == c && ([e] + s)[1..] == s;
  }

  lemma Skip(e: string, c: seq<string>, s: seq<string>)
    requires Lcs.IsSubsequence(c, s)
    ensures Lcs.IsSubsequence(c, [e] + s)
  {
    assert ([e] + s)[1..] == s;
  }

  lemma KeptAtMostLcs(s: seq<Edit>)
    ensures Kept(s) <= Lcs.Length(OldSide(s), NewSide(s))
  {
    KeptIsCommon(s);
    Lcs.UpperBound(KeptTexts(s), OldSide(s), NewSide(s));
  }

  /** A script is minimal exactly when it keeps as many lines as the longest common subsequence. */
  lemma MinimalIffKeepsLcs(s: seq<Edit>)
    ensures Minimal(s) <==> Kept(s) == Lcs.Length(OldSide(s), NewSide(s))
  {
    KeptIsCommon(s);
    if Kept(s) == Lcs.Length(OldSide(s), NewSide(s)) {
      forall t: seq<Edit> | Transforms(t, OldSide(s), NewSide(s))
        ensures Changes(s) <= Changes(t)
      {
        KeptIsCommon(t);
        KeptAtMostLcs(t);
      }
    } else {
      KeptAtMostLcs(s);
      var t := Walk(OldSide(s), NewSide(s));
      WalkIsOptimal(OldSide(s), NewSide(s));
      KeptIsCommon(t);
      assert Transforms(t, OldSide(s), NewSide(s));
    }
  }

  // ---- the script the code builds ------------------------------------------

  /** The greedy walk: keep on a match, otherwise delete unless adding leads to strictly more. */
  function Walk(x: seq<string>, y: seq<string>): seq<Edit>
    decreases |x| + |y|
  {
    if |x| > 0 && |y| > 0 then
      if x[0] == y[0] then [Edit(Ctx, x[0])] + Walk(x[1..], y[1..])
      else if Lcs.Length(x[1..], y) >= Lcs.Length(x, y[1..]) then [Edit(Del, x[0])] + Walk(x[1..], y)
      else [Edit(Add, y[0])] + Walk(x, y[1..])
    else Block(Del, x) + Block(Add, y)
  }

  lemma {:induction false} WalkIsOptimal(x: seq<string>, y: seq<string>)
    ensures Transforms(Walk(x, y), x, y)
    ensures Kept(Walk(x, y)) == Lcs.Length(x, y)
    decreases |x| + |y|
  {
    if |x| > 0 && |y| > 0 {
      var w := Walk(x, y);
      if x[0] == y[0] {
        WalkIsOptimal(x[1..], y[1..]);
        assert w[1..] == Walk(x[1..], y[1..]);
      } else if Lcs.Length(x[1..], y) >= Lcs.Length(x, y[1..]) {
        WalkIsOptimal(x[1..], y);
        assert w[1..] == Walk(x[1..], y);
      } else {
        WalkIsOptimal(x, y[1..]);
        assert w[1..] == Walk(x, y[1..]);
      }
    } else {
      RestOfWalk(x, y);
    }
  }

  /** When one side is used up, the other is drained. */
  lemma RestOfWalk(x: seq<string>, y: seq<string>)
    requires x == [] || y == []
    ensures Transforms(Walk(x, y), x, y) && Kept(Walk(x, y)) == Lcs.Length(x, y)
  {
    BlockSides(Del, x);
    BlockSides(Add, y);
    SidesConcat(Block(Del, x), Block(Add, y));
  }

  /** How many leading lines the two texts share, the first `n` of them already known to agree. */
  function SharedPrefix(a: seq<string>, b: seq<string>, n: nat): (r: nat)
    requires n <= |a| && n <= |b|
    ensures n <= r <= |a| && r <= |b| && forall k :: n <= k < r ==> a[k] == b[k]
    ensures r < |a| && r < |b| ==> a[r] != b[r]
    decreases |a| - n
  {
    if n < |a| && n < |b| && a[n] == b[n] then SharedPrefix(a, b, n + 1) else n
  }

  function FromEnd<T>(a: seq<T>, k: nat): T
    requires k < |a|
  {
    a[|a| - 1 - k]
  }

  /** The same at the other end, never reaching into the first `p` lines. */
  function SharedSuffix(a: seq<string>, b: seq<string>, p: nat, n: nat): (r: nat)
    requires p + n <= |a| && p + n <= |b|
    ensures n <= r <= |a| - p && r <= |b| - p
    ensures forall k :: n <= k < r ==> FromEnd(a, k) == FromEnd(b, k)
    ensures r < |a| - p && r < |b| - p ==> FromEnd(a, r) != FromEnd(b, r)
    decreases |a| - n
  {
    if n < |a| - p && n < |b| - p && FromEnd(a, n) == FromEnd(b, n) then SharedSuffix(a, b, p, n + 1)
    else n
  }

  /** What is left of the two texts once the shared ends are set aside. */
  datatype Trimmed = Trimmed(head: seq<string>, x: seq<string>, y: seq<string>, tail: seq<string>)

  function Trim(a: seq<string>, b: seq<string>): Trimmed {
    var p := SharedPrefix(a, b, 0);
    var s := SharedSuffix(a, b, p, 0);
    Trimmed(a[..p], a[p..|a| - s], b[p..|b| - s], a[|a| - s..])
  }

  lemma TrimParts(a: seq<string>, b: seq<string>)
    ensures var t := Trim(a, b);
            a == t.head + t.x + t.tail && b == t.head + t.y + t.tail
  {
    var p := SharedPrefix(a, b, 0);
    var s := SharedSuffix(a, b, p, 0);
    Reassemble(a, a, p, s);
    Reassemble(a, b, p, s);
  }

  lemma Reassemble<T>(a: seq<T>, b: seq<T>, p: nat, s: nat)
    requires p + s <= |a| && p + s <= |b|
    requires forall k :: 0 <= k < p ==> a[k] == b[k]
    requires forall k :: 0 <= k < s ==> FromEnd(a, k) == FromEnd(b, k)
    ensures b == a[..p] + b[p..|b| - s] + a[|a| - s..]
  {
    var c := a[..p] + b[p..|b| - s] + a[|a| - s..];
    forall k | 0 <= k < |b|
      ensures b[k] == c[k]
    {
      if k >= |b| - s {
        assert FromEnd(a, |b| - 1 - k) == FromEnd(b, |b| - 1 - k);
      }
    }
  }

  const TABLE_LIMIT: nat := 1000000

  /** The size bound beyond which the code falls back to deleting and adding everything. */
  predicate FitsTable(x: seq<string>, y: seq<string>) {
    (|x| + 1) * (|y| + 1) <= TABLE_LIMIT
  }

  function Middle(x: seq<string>, y: seq<string>): seq<Edit> {
    if FitsTable(x, y) then Walk(x, y) else Block(Del, x) + Block(Add, y)
  }

  function Script(a: seq<string>, b: seq<string>): seq<Edit> {
    var t := Trim(a, b);
    Block(Ctx, t.head) + Middle(t.x, t.y) + Block(Ctx, t.tail)
  }

  lemma MiddleTransforms(x: seq<string>, y: seq<string>)
    ensures Transforms(Middle(x, y), x, y)
  {
    if FitsTable(x, y) {
      WalkIsOptimal(x, y);
    } else {
      BlockSides(Del, x);
      BlockSides(Add, y);
      SidesConcat(Block(Del, x), Block(Add, y));
    }
  }

  lemma ScriptParts(a: seq<string>, b: seq<string>)
    ensures Transforms(Script(a, b), a, b)
    ensures var t := Trim(a, b);
            Kept(Script(a, b)) == |t.head| + Kept(Middle(t.x, t.y)) + |t.tail|
  {
    var t := Trim(a, b);
    TrimParts(a, b);
    MiddleTransforms(t.x, t.y);
    Enclosed(t.head, Middle(t.x, t.y), t.tail);
  }

  /** Shared lines around a script stay on both sides. */
  lemma Enclosed(head: seq<string>, m: seq<Edit>, tail: seq<string>)
    ensures var s := Block(Ctx, head) + m + Block(Ctx, tail);
      && Transforms(s, head + OldSide(m) + tail, head + NewSide(m) + tail)
      && Kept(s) == |head| + Kept(m) + |tail|
  {
    BlockSides(Ctx, head);
    BlockSides(Ctx, tail);
    SidesConcat(Block(Ctx, head), m);
    SidesConcat(Block(Ctx, head) + m, Block(Ctx, tail));
  }

  /** Setting the shared ends aside costs nothing. */
  lemma TrimKeepsLcs(a: seq<string>, b: seq<string>)
    ensures var t := Trim(a, b);
            Lcs.Length(a, b) == |t.head| + Lcs.Length(t.x, t.y) + |t.tail|
  {
    var t := Trim(a, b);
    TrimParts(a, b);
    Lcs.CommonSuffix(t.head + t.x, t.head + t.y, t.tail);
    Lcs.CommonPrefix(t.head, t.x, t.y);
  }

  /** Some line of one text occurs in the other. */
  ghost predicate ShareLine(x: seq<string>, y: seq<string>) {
    exists s :: s in x && s in y
  }

  /**
   The script is always a diff of the two texts, and it is a minimal one exactly when the table ran
   or the fallback had nothing to keep.
  */
  lemma ScriptIsDiff(a: seq<string>, b: seq<string>)
    ensures Transforms(Script(a, b), a, b)
    ensures var t := Trim(a, b);
            Minimal(Script(a, b)) <==> FitsTable(t.x, t.y) || !ShareLine(t.x, t.y)
  {
    var t := Trim(a, b);
    ScriptParts(a, b);
    TrimKeepsLcs(a, b);
    MinimalIffKeepsLcs(Script(a, b));
    MiddleKeeps(t.x, t.y);
  }

  lemma MiddleKeeps(x: seq<string>, y: seq<string>)
    ensures Kept(Middle(x, y)) == Lcs.Length(x, y) <==> FitsTable(x, y) || !ShareLine(x, y)
  {
    if FitsTable(x, y) {
      WalkIsOptimal(x, y);
    } else {
      BlockSides(Del, x);
      BlockSides(Add, y);
      SidesConcat(Block(Del, x), Block(Add, y));
      if ShareLine(x, y) {
        var s :| s in x && s in y;
        Lcs.SharedElement(x, y, s);
      } else {
        Lcs.NoSharedElement(x, y);
      }
    }
  }

  // ---- numbering -------------------------------------------------------------

  function Numbered(e: Edit, oldNo: nat, newNo: nat): Line {
    Line(e.kind, e.text,
         if e.kind == Add then Absent else At(oldNo),
         if e.kind == Del then Absent else At(newNo))
  }

  function Number(s: seq<Edit>, oldNo: nat, newNo: nat): (lines: seq<Line>)
    ensures |lines| == |s|
  {
    if |s| == 0 then []
    else [Numbered(s[0], oldNo, newNo)]
         + Number(s[1..], if s[0].kind == Add then oldNo else oldNo + 1,
                  if s[0].kind == Del then newNo else newNo + 1)
  }

  /** Line `k` carries, on each side it belongs to, one more than the lines of that side before it. */
  lemma {:induction false} NumberAt(s: seq<Edit>, oldNo: nat, newNo: nat, k: nat)
    requires k < |s|
    ensures Number(s, oldNo, newNo)[k]
         == Numbered(s[k], oldNo + |OldSide(s[..k])|, newNo + |NewSide(s[..k])|)
  {
    if k > 0 {
      assert s[..k][1..] == s[1..][..k - 1];
      NumberAt(s[1..], if s[0].kind == Add then oldNo else oldNo + 1,
               if s[0].kind == Del then newNo else newNo + 1, k - 1);
    }
  }

  lemma NumberSnoc(s: seq<Edit>, e: Edit)
    ensures Number(s + [e], 1, 1)
         == Number(s, 1, 1) + [Numbered(e, 1 + |OldSide(s)|, 1 + |NewSide(s)|)]
  {
    var w := s + [e];
    forall k: nat | k < |w|
      ensures Number(w, 1, 1)[k]
           == (Number(s, 1, 1) + [Numbered(e, 1 + |OldSide(s)|, 1 + |NewSide(s)|)])[k]
    {
      NumberAt(w, 1, 1, k);
      if k < |s| {
        NumberAt(s, 1, 1, k);
        assert w[..k] == s[..k];
      } else {
        assert w[..k] == s;
      }
    }
  }

  // ---- what the lines promise, without the algorithm --------------------------------

  function Edits(lines: seq<Line>): (s: seq<Edit>)
    ensures |s| == |lines| && forall k :: 0 <= k < |s| ==> s[k] == Edit(lines[k].kind, lines[k].text)
  {
    seq(|lines|, k requires 0 <= k < |lines| => Edit(lines[k].kind, lines[k].text))
  }

  /** The texts share `head` and `tail`, which leaves `x` and `y` in between. */
  ghost predicate SharedEnds(a: seq<string>, b: seq<string>, head: seq<string>, x: seq<string>,
                             y: seq<string>, tail: seq<string>) {
    a == head + x + tail && b == head + y + tail
  }

  /** Nothing more can be set aside. */
  ghost predicate Tight(x: seq<string>, y: seq<string>) {
    x == [] || y == [] || (x[0] != y[0] && x[|x| - 1] != y[|y| - 1])
  }

  /** No deletion comes behind an addition. */
  ghost predicate DeletionsFirst(lines: seq<Line>) {
    forall i, j :: 0 <= i < j < |lines| && lines[i].kind == Add ==> lines[j].kind != Del
  }

  /** Each line carries its number on every side it belongs to, counted from one. */
  ghost predicate WellNumbered(lines: seq<Line>) {
    forall k :: 0 <= k < |lines| ==>
      && lines[k].oldNo
         == (if lines[k].kind == Add then Absent else At(1 + |OldSide(Edits(lines[..k]))|))
      && lines[k].newNo
         == (if lines[k].kind == Del then Absent else At(1 + |NewSide(Edits(lines[..k]))|))
  }

  /**
   The lines spell both texts and are numbered. They are as few changes as possible whenever some shared
   ends leave middles that fit a table of a million cells. When the middles behind the longest shared ends
   do not fit, or have no line in common, all deletions come first.
  */
  ghost predicate IsDiff(lines: seq<Line>, a: seq<string>, b: seq<string>) {
    && Transforms(Edits(lines), a, b) && WellNumbered(lines)
    && (forall head, x, y, tail :: SharedEnds(a, b, head, x, y, tail) && (|x| + 1) * (|y| + 1) <= 1_000_000
          ==> Minimal(Edits(lines)))
    && (forall head, x, y, tail ::
          (SharedEnds(a, b, head, x, y, tail) && Tight(x, y)
           && ((|x| + 1) * (|y| + 1) > 1_000_000 || !ShareLine(x, y)))
          ==> DeletionsFirst(lines))
  }

  lemma NumberedEdits(s: seq<Edit>)
    ensures Edits(Number(s, 1, 1)) == s && WellNumbered(Number(s, 1, 1))
  {
    var lines := Number(s, 1, 1);
    forall k: nat | k < |s| ensures lines[k] == Numbered(s[k], 1 + |OldSide(s[..k])|, 1 + |NewSide(s[..k])|) {
      NumberAt(s, 1, 1, k);
    }
    assert Edits(lines) == s;
    forall k: nat | k < |s| ensures Edits(lines[..k]) == s[..k] {}
  }

  lemma PrefixReaches(a: seq<string>, b: seq<string>, head: seq<string>, u: seq<string>, v: seq<string>)
    requires a == head + u && b == head + v
    ensures SharedPrefix(a, b, 0) >= |head|
    ensures u != [] && v != [] && u[0] != v[0] ==> SharedPrefix(a, b, 0) == |head|
  {
    hide SharedPrefix;
    assert forall k :: 0 <= k < |head| ==> a[k] == head[k] && b[k] == head[k];
    assert u != [] && v != [] ==> a[|head|] == u[0] && b[|head|] == v[0];
  }

  lemma SuffixReaches(a: seq<string>, b: seq<string>, p: nat, u: seq<string>, v: seq<string>, tail: seq<string>)
    requires a == u + tail && b == v + tail && p <= |a| && p <= |b|
    ensures var s := SharedSuffix(a, b, p, 0);
            && (s >= |tail| || p + s == |a| || p + s == |b|)
            && (|u| > p && |v| > p && u[|u| - 1] != v[|v| - 1] ==> s == |tail|)
  {
    hide SharedSuffix;
    forall k | 0 <= k < |tail| ensures FromEnd(a, k) == tail[|tail| - 1 - k] && FromEnd(b, k) == FromEnd(a, k) {}
    assert |u| > 0 && |v| > 0 ==> FromEnd(a, |tail|) == u[|u| - 1] && FromEnd(b, |tail|) == v[|v| - 1];
  }

  /** The longest shared ends, none of the three parts overlapping. */
  lemma EndsReach(a: seq<string>, b: seq<string>, head: seq<string>, x: seq<string>,
                  y: seq<string>, tail: seq<string>) returns (p: nat, s: nat)
    requires SharedEnds(a, b, head, x, y, tail)
    ensures p == SharedPrefix(a, b, 0) && s == SharedSuffix(a, b, p, 0) && p + s >= |head| + |tail|
    ensures Tight(x, y) && x != [] && y != [] ==> p == |head| && s == |tail|
  {
    hide SharedPrefix, SharedSuffix;
    p := SharedPrefix(a, b, 0);
    s := SharedSuffix(a, b, p, 0);
    Associative(head, x, tail);
    Associative(head, y, tail);
    PrefixReaches(a, b, head, x + tail, y + tail);
    SuffixReaches(a, b, p, head + x, head + y, tail);
    if Tight(x, y) && x != [] && y != [] {
      assert (head + x)[|head + x| - 1] == x[|x| - 1] && (head + y)[|head + y| - 1] == y[|y| - 1];
    }
  }

  lemma PartsOf<T>(head: seq<T>, x: seq<T>, tail: seq<T>)
    ensures var a := head + x + tail;
            a[..|head|] == head && a[|head|..|a| - |tail|] == x && a[|a| - |tail|..] == tail
  {
  }

  /** No shared ends are longer than those the code sets aside. */
  lemma TrimIsLargest(a: seq<string>, b: seq<string>, head: seq<string>, x: seq<string>,
                      y: seq<string>, tail: seq<string>)
    requires SharedEnds(a, b, head, x, y, tail)
    ensures |Trim(a, b).x| <= |x| && |Trim(a, b).y| <= |y|
    ensures Tight(x, y) ==> |Trim(a, b).x| == |x| && |Trim(a, b).y| == |y|
    ensures Tight(x, y) && x != [] && y != [] ==> Trim(a, b) == Trimmed(head, x, y, tail)
  {
    hide SharedPrefix, SharedSuffix;
    var p, s := EndsReach(a, b, head, x, y, tail);
    PartsOf(head, x, tail);
    PartsOf(head, y, tail);
  }

  /** With no line in common the walk deletes all and then adds all. */
  lemma {:induction false} DisjointWalk(x: seq<string>, y: seq<string>)
    requires !ShareLine(x, y)
    ensures Walk(x, y) == Block(Del, x) + Block(Add, y)
  {
    if |x| > 0 && |y| > 0 {
      assert x[0] in x && y[0] in y;
      Lcs.NoSharedElement(x[1..], y);
      Lcs.NoSharedElement(x, y[1..]);
      DisjointWalk(x[1..], y);
      assert Block(Del, x) == [Edit(Del, x[0])] + Block(Del, x[1..]);
      Associative([Edit(Del, x[0])], Block(Del, x[1..]), Block(Add, y));
    }
  }

  lemma BlocksFirst(s: seq<Edit>, head: seq<string>, x: seq<string>, y: seq<string>, tail: seq<string>)
    requires s == Block(Ctx, head) + (Block(Del, x) + Block(Add, y)) + Block(Ctx, tail)
    ensures DeletionsFirst(Number(s, 1, 1))
  {
    NumberedEdits(s);
    var lines := Number(s, 1, 1);
    forall i, j | 0 <= i < j < |lines| && lines[i].kind == Add ensures lines[j].kind != Del {
      assert lines[i].kind == s[i].kind && lines[j].kind == s[j].kind;
    }
  }

  lemma ScriptLines(a: seq<string>, b: seq<string>)
    ensures IsDiff(Number(Script(a, b), 1, 1), a, b)
  {
    hide Trim, Number, Minimal, Transforms, Tight, WellNumbered, Walk, DeletionsFirst;
    var t, s := Trim(a, b), Script(a, b);
    ScriptIsDiff(a, b);
    NumberedEdits(s);
    forall head, x, y, tail | SharedEnds(a, b, head, x, y, tail) && (|x| + 1) * (|y| + 1) <= 1_000_000
      ensures Minimal(Edits(Number(s, 1, 1)))
    {
      TrimIsLargest(a, b, head, x, y, tail);
      SmallerTable(|t.x|, |t.y|, |x|, |y|);
    }
    forall head, x, y, tail | SharedEnds(a, b, head, x, y, tail) && Tight(x, y)
        && ((|x| + 1) * (|y| + 1) > 1_000_000 || !ShareLine(x, y))
      ensures DeletionsFirst(Number(s, 1, 1))
    {
      TrimIsLargest(a, b, head, x, y, tail);
      if FitsTable(t.x, t.y) {
        assert !ShareLine(t.x, t.y);
        DisjointWalk(t.x, t.y);
      }
      BlocksFirst(s, t.head, t.x, t.y, t.tail);
    }
  }

  lemma SmallerTable(m: nat, n: nat, k: nat, l: nat)
    requires m <= k && n <= l
    ensures (m + 1) * (n + 1) <= (k + 1) * (l + 1)
  {
    assert (k + 1) * (l + 1) - (m + 1) * (n + 1) == (k - m) * (l + 1) + (m + 1) * (l - n);
  }

  // ---- the imperative algorithm ------------------------------------------------

  /** The `lines` array with the two running counters the closure `add` advances. */
  class LineBuffer {
    var lines: seq<Line>
    var oldNo: nat
    var newNo: nat
    ghost var script: seq<Edit>

    ghost predicate Valid()
      reads this
    {
      && lines == Number(script, 1, 1)
      && oldNo == 1 + |OldSide(script)|
      && newNo == 1 + |NewSide(script)|
    }

    constructor ()
      ensures Valid() && script == []
    {
      lines, oldNo, newNo, script := [], 1, 1, [];
    }

    method Push(kind: Kind, text: string)
      requires Valid()
      modifies this
      ensures Valid() && script == old(script) + [Edit(kind, text)]
    {
      NumberSnoc(script, Edit(kind, text));
      SidesConcat(script, [Edit(kind, text)]);
      var line := Line(kind, text,
                       if kind == Add then Absent else At(oldNo),
                       if kind == Del then Absent else At(newNo));
      lines := lines + [line];
      if kind != Add { oldNo := oldNo + 1; }
      if kind != Del { newNo := newNo + 1; }
      script := script + [Edit(kind, text)];
    }

    /** The one-sided loops `for (...) add(kind, texts[k])`. */
    method PushAll(kind: Kind, texts: seq<string>)
      requires Valid()
      modifies this
      ensures Valid() && script == old(script) + Block(kind, texts)
    {
      for k := 0 to |texts|
        invariant Valid() && script == old(script) + Block(kind, texts[..k])
      {
        Push(kind, texts[k]);
        assert Block(kind, texts[..k + 1]) == Block(kind, texts[..k]) + [Edit(kind, texts[k])];
      }
      assert texts[..|texts|] == texts;
    }
  }

  /** Storing into a `Uint32Array` keeps the value modulo 2^32. */
  function ToUint32(v: int): (r: nat)
    ensures 0 <= v < 0x1_0000_0000 ==> r == v
  {
    v % 0x1_0000_0000
  }

  function Cell(width: nat, i: nat, j: nat): nat { i * width + j }

  lemma CellInRange(m: nat, width: nat, i: nat, j: nat)
    requires i <= m && j < width
    ensures Cell(width, i, j) < (m + 1) * width
  {
    assert (i + 1) * width <= (m + 1) * width;
  }

  lemma CellsOrdered(width: nat, i: nat, j: nat, k: nat, l: nat)
    requires j < width && i < k
    ensures Cell(width, i, j) < Cell(width, k, l)
  {
    assert (i + 1) * width <= k * width;
  }

  lemma CellInjective(width: nat, i: nat, j: nat, k: nat, l: nat)
    requires j < width && l < width
    ensures Cell(width, i, j) == Cell(width, k, l) <==> i == k && j == l
  {
    if i < k {
      CellsOrdered(width, i, j, k, l);
    } else if k < i {
      CellsOrdered(width, k, l, i, j);
    }
  }

  /** The entries the backward sweep has settled once it reaches column `j` of row `i`. */
  predicate Settled(m: nat, n: nat, i: int, j: int, k: nat, l: nat) {
    k <= m && l <= n && (k > i || (k == i && l >= j) || l == n)
  }

  ghost predicate Tabulated(dp: seq<int>, x: seq<string>, y: seq<string>, i: int, j: int) {
    && |dp| == (|x| + 1) * (|y| + 1)
    && forall k: nat, l: nat {:trigger Cell(|y| + 1, k, l)} :: Settled(|x|, |y|, i, j, k, l) ==>
         Cell(|y| + 1, k, l) < |dp| && dp[Cell(|y| + 1, k, l)] == Lcs.Length(x[k..], y[l..])
  }

  lemma TableStart(dp: seq<int>, x: seq<string>, y: seq<string>)
    requires |dp| == (|x| + 1) * (|y| + 1) && forall c :: 0 <= c < |dp| ==> dp[c] == 0
    ensures Tabulated(dp, x, y, |x| - 1, |y|)
  {
    forall k: nat, l: nat | Settled(|x|, |y|, |x| - 1, |y|, k, l)
      ensures Cell(|y| + 1, k, l) < |dp| && dp[Cell(|y| + 1, k, l)] == Lcs.Length(x[k..], y[l..])
    {
      CellInRange(|x|, |y| + 1, k, l);
    }
  }

  lemma TableRowDone(dp: seq<int>, x: seq<string>, y: seq<string>, i: int)
    requires Tabulated(dp, x, y, i, 0)
    ensures Tabulated(dp, x, y, i - 1, |y|)
  {
    forall k: nat, l: nat | Settled(|x|, |y|, i - 1, |y|, k, l)
      ensures Cell(|y| + 1, k, l) < |dp| && dp[Cell(|y| + 1, k, l)] == Lcs.Length(x[k..], y[l..])
    {
      assert Settled(|x|, |y|, i, 0, k, l);
    }
  }

  lemma TableStep(dp: seq<int>, dp': seq<int>, x: seq<string>, y: seq<string>, i: nat, j: nat)
    requires i < |x| && j < |y| && Tabulated(dp, x, y, i, j + 1)
    requires Cell(|y| + 1, i, j) < |dp|
    requires dp' == dp[Cell(|y| + 1, i, j) := Lcs.Length(x[i..], y[j..])]
    ensures Tabulated(dp', x, y, i, j)
  {
    forall k: nat, l: nat | Settled(|x|, |y|, i, j, k, l)
      ensures Cell(|y| + 1, k, l) < |dp'| && dp'[Cell(|y| + 1, k, l)] == Lcs.Length(x[k..], y[l..])
    {
      CellInRange(|x|, |y| + 1, k, l);
      CellInjective(|y| + 1, k, l, i, j);
      if k != i || l != j {
        assert Settled(|x|, |y|, i, j + 1, k, l);
      }
    }
  }

  lemma LcsFitsUint32(x: seq<string>, y: seq<string>)
    requires FitsTable(x, y)
    ensures Lcs.Length(x, y) < 0x1_0000_0000
  {
    Lcs.LengthBound(x, y);
    assert |x| <= (|x| + 1) * (|y| + 1);
  }

  lemma SuffixFitsTable(x: seq<string>, y: seq<string>, i: nat, j: nat)
    requires i <= |x| && j <= |y| && FitsTable(x, y)
    ensures FitsTable(x[i..], y[j..])
  {
    assert (|x| - i + 1) * (|y| - j + 1) <= (|x| + 1) * (|y| - j + 1) <= (|x| + 1) * (|y| + 1);
  }

  /** Fills the flat table in place, last row and last column first. */
  method FillTable(x: seq<string>, y: seq<string>) returns (dp: array<int>)
    requires FitsTable(x, y)
    ensures Tabulated(dp[..], x, y, 0, 0)
  {
    var m, n := |x|, |y|;
    var width := n + 1;
    dp := new int[(m + 1) * width](_ => 0);
    TableStart(dp[..], x, y);
    var i := m - 1;
    while i >= 0
      invariant -1 <= i < m
      invariant Tabulated(dp[..], x, y, i, n)
    {
      var j := n - 1;
      while j >= 0
        invariant -1 <= j < n
        invariant Tabulated(dp[..], x, y, i, j + 1)
      {
        CellInRange(m, width, i, j);
        assert Settled(m, n, i, j + 1, i + 1, j + 1) && Settled(m, n, i, j + 1, i + 1, j)
            && Settled(m, n, i, j + 1, i, j + 1);
        assert dp[Cell(width, i + 1, j + 1)] == Lcs.Length(x[i + 1..], y[j + 1..]);
        assert dp[Cell(width, i + 1, j)] == Lcs.Length(x[i + 1..], y[j..]);
        assert dp[Cell(width, i, j + 1)] == Lcs.Length(x[i..], y[j + 1..]);
        ghost var before := dp[..];
        var value := if x[i] == y[j] then dp[Cell(width, i + 1, j + 1)] + 1
                     else Lcs.Max(dp[Cell(width, i + 1, j)], dp[Cell(width, i, j + 1)]);
        assert x[i..][1..] == x[i + 1..] && y[j..][1..] == y[j + 1..];
        assert value == Lcs.Length(x[i..], y[j..]);
        SuffixFitsTable(x, y, i, j);
        LcsFitsUint32(x[i..], y[j..]);
        dp[Cell(width, i, j)] := ToUint32(value);
        TableStep(before, dp[..], x, y, i, j);
        j := j - 1;
      }
      TableRowDone(dp[..], x, y, i);
      i := i - 1;
    }
    TableFinished(dp[..], x, y);
  }

  lemma TableFinished(dp: seq<int>, x: seq<string>, y: seq<string>)
    requires Tabulated(dp, x, y, -1, |y|)
    ensures Tabulated(dp, x, y, 0, 0)
  {
    forall k: nat, l: nat | Settled(|x|, |y|, 0, 0, k, l)
      ensures Cell(|y| + 1, k, l) < |dp| && dp[Cell(|y| + 1, k, l)] == Lcs.Length(x[k..], y[l..])
    {
      assert Settled(|x|, |y|, -1, |y|, k, l);
    }
  }

  /** One turn of the walk peels one edit off the front of `Walk`. */
  lemma WalkStep(x: seq<string>, y: seq<string>, i: nat, j: nat)
    requires i < |x| && j < |y|
    ensures Walk(x[i..], y[j..]) ==
            if x[i] == y[j] then [Edit(Ctx, x[i])] + Walk(x[i + 1..], y[j + 1..])
            else if Lcs.Length(x[i + 1..], y[j..]) >= Lcs.Length(x[i..], y[j + 1..])
            then [Edit(Del, x[i])] + Walk(x[i + 1..], y[j..])
            else [Edit(Add, y[j])] + Walk(x[i..], y[j + 1..])
  {
    assert x[i..][1..] == x[i + 1..] && y[j..][1..] == y[j + 1..];
  }

  lemma TableEntries(table: seq<int>, x: seq<string>, y: seq<string>, i: nat, j: nat)
    requires Tabulated(table, x, y, 0, 0) && i < |x| && j < |y|
    ensures var down, right := Cell(|y| + 1, i + 1, j), Cell(|y| + 1, i, j + 1);
            && down < |table| && table[down] == Lcs.Length(x[i + 1..], y[j..])
            && right < |table| && table[right] == Lcs.Length(x[i..], y[j + 1..])
  {
    assert Settled(|x|, |y|, 0, 0, i + 1, j) && Settled(|x|, |y|, 0, 0, i, j + 1);
  }

  lemma Regroup<T>(s: seq<T>, e: T, t: seq<T>)
    ensures s + ([e] + t) == (s + [e]) + t
  {
  }

  /** Walks the table from its first cell, then drains whichever side is left. */
  method Backtrack(x: seq<string>, y: seq<string>, dp: array<int>, buffer: LineBuffer)
    requires Tabulated(dp[..], x, y, 0, 0) && buffer.Valid()
    modifies buffer
    ensures buffer.Valid() && buffer.script == old(buffer.script) + Walk(x, y)
  {
    var width := |y| + 1;
    var i, j := 0, 0;
    ghost var table, start := dp[..], buffer.script;
    assert x[0..] == x && y[0..] == y;
    while i < |x| && j < |y|
      invariant 0 <= i <= |x| && 0 <= j <= |y|
      invariant dp[..] == table
      invariant buffer.Valid() && buffer.script + Walk(x[i..], y[j..]) == start + Walk(x, y)
      decreases |x| + |y| - i - j
    {
      TableEntries(table, x, y, i, j);
      WalkStep(x, y, i, j);
      ghost var before := buffer.script;
      if x[i] == y[j] {
        buffer.Push(Ctx, x[i]);
        Regroup(before, Edit(Ctx, x[i]), Walk(x[i + 1..], y[j + 1..]));
        i, j := i + 1, j + 1;
      } else if dp[Cell(width, i + 1, j)] >= dp[Cell(width, i, j + 1)] {
        buffer.Push(Del, x[i]);
        Regroup(before, Edit(Del, x[i]), Walk(x[i + 1..], y[j..]));
        i := i + 1;
      } else {
        buffer.Push(Add, y[j]);
        Regroup(before, Edit(Add, y[j]), Walk(x[i..], y[j + 1..]));
        j := j + 1;
      }
    }
    buffer.PushAll(Del, x[i..]);
    buffer.PushAll(Add, y[j..]);
  }

  /** The two trimming loops of `compute`. */
  method TrimEnds(a: seq<string>, b: seq<string>) returns (prefix: nat, suffix: nat)
    ensures prefix == SharedPrefix(a, b, 0) && suffix == SharedSuffix(a, b, prefix, 0)
  {
    prefix, suffix := 0, 0;
    while prefix < |a| && prefix < |b| && a[prefix] == b[prefix]
      invariant prefix <= |a| && prefix <= |b|
      invariant SharedPrefix(a, b, prefix) == SharedPrefix(a, b, 0)
    {
      prefix := prefix + 1;
    }
    while suffix < |a| - prefix && suffix < |b| - prefix && FromEnd(a, suffix) == FromEnd(b, suffix)
      invariant prefix + suffix <= |a| && prefix + suffix <= |b|
      invariant SharedSuffix(a, b, prefix, suffix) == SharedSuffix(a, b, prefix, 0)
    {
      suffix := suffix + 1;
    }
  }

  /** The lines between the common ends: the table when it fits, else all deletions and then all additions. */
  method EmitMiddle(x: seq<string>, y: seq<string>, buffer: LineBuffer)
    requires buffer.Valid()
    modifies buffer
    ensures buffer.Valid() && buffer.script == old(buffer.script) + Middle(x, y)
  {
    if (|x| + 1) * (|y| + 1) > TABLE_LIMIT {
      ghost var before := buffer.script;
      buffer.PushAll(Del, x);
      buffer.PushAll(Add, y);
      Associative(before, Block(Del, x), Block(Add, y));
    } else {
      var dp := FillTable(x, y);
      Backtrack(x, y, dp, buffer);
    }
  }

  /** The part of `compute` after trimming. */
  method Emit(head: seq<string>, x: seq<string>, y: seq<string>, tail: seq<string>)
      returns (lines: seq<Line>)
    ensures lines == Number(Block(Ctx, head) + Middle(x, y) + Block(Ctx, tail), 1, 1)
  {
    var buffer := new LineBuffer();
    buffer.PushAll(Ctx, head);
    assert buffer.script == Block(Ctx, head);
    EmitMiddle(x, y, buffer);
    buffer.PushAll(Ctx, tail);
    lines := buffer.lines;
  }

  method ComputeLines(a: seq<string>, b: seq<string>) returns (lines: seq<Line>)
    ensures lines == Number(Script(a, b), 1, 1)
  {
    var prefix, suffix := TrimEnds(a, b);
    ghost var t := Trim(a, b);
    assert t.head == a[..prefix] && t.tail == a[|a| - suffix..];
    assert t.x == a[prefix..|a| - suffix] && t.y == b[prefix..|b| - suffix];
    lines := Emit(a[..prefix], a[prefix..|a| - suffix], b[prefix..|b| - suffix], a[|a| - suffix..]);
  }

  /** `OSADiff.compute`. */
  method Compute(oldText: string, newText: string) returns (lines: seq<Line>)
    ensures lines == Number(Script(Split(oldText, NL), Split(newText, NL)), 1, 1)
    ensures IsDiff(lines, Split(oldText, NL), Split(newText, NL))
  {
    hide IsDiff;
    lines := ComputeLines(Split(oldText, NL), Split(newText, NL));
    ScriptLines(Split(oldText, NL), Split(newText, NL));
  }
}
