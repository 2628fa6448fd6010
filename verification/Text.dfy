/** Strings as the JavaScript sources handle them: splitting and joining on one separator. */
module Text {

  const NL: char := '\n'

  /** `s.split(sep)` for a one-character separator; the result is never empty. */
  function Split(s: string, sep: char): (parts: seq<string>)
    ensures |parts| > 0
  {
    if s == "" then [""]
    else
      var rest := Split(s[1..], sep);
      if s[0] == sep then [""] + rest else [[s[0]] + rest[0]] + rest[1..]
  }

  /** `parts.join(sep)`. */
  function Join(parts: seq<string>, sep: char): string {
    if |parts| == 0 then ""
    else if |parts| == 1 then parts[0]
    else parts[0] + [sep] + Join(parts[1..], sep)
  }

  ghost predicate NoneContains(parts: seq<string>, sep: char) {
    forall i :: 0 <= i < |parts| ==> sep !in parts[i]
  }

  lemma {:induction false} JoinSplit(s: string, sep: char)
    ensures Join(Split(s, sep), sep) == s
  {
    if s != "" {
      JoinSplit(s[1..], sep);
      var rest := Split(s[1..], sep);
      if s[0] == sep {
        assert ([""] + rest)[1..] == rest;
      } else {
        assert ([[s[0]] + rest[0]] + rest[1..])[1..] == rest[1..];
      }
    }
  }

  lemma {:induction false} SplitPartsFreeOfSeparator(s: string, sep: char)
    ensures NoneContains(Split(s, sep), sep)
  {
    if s != "" {
      SplitPartsFreeOfSeparator(s[1..], sep);
    }
  }

  lemma {:induction false} SplitWithoutSeparator(s: string, sep: char)
    requires sep !in s
    ensures Split(s, sep) == [s]
  {
    if s != "" {
      SplitWithoutSeparator(s[1..], sep);
      assert [s[0]] + s[1..] == s;
    }
  }

  /** A separator in the middle splits the two sides independently. */
  lemma {:induction false} SplitConcat(a: string, b: string, sep: char)
    ensures Split(a + [sep] + b, sep) == Split(a, sep) + Split(b, sep)
  {
    if a == "" {
      assert (a + [sep] + b)[1..] == b;
    } else {
      assert (a + [sep] + b)[1..] == a[1..] + [sep] + b;
      SplitConcat(a[1..], b, sep);
    }
  }

  lemma {:induction false} SplitJoin(parts: seq<string>, sep: char)
    requires |parts| > 0 && NoneContains(parts, sep)
    ensures Split(Join(parts, sep), sep) == parts
  {
    if |parts| == 1 {
      SplitWithoutSeparator(parts[0], sep);
    } else {
      assert NoneContains(parts[1..], sep);
      SplitJoin(parts[1..], sep);
      SplitConcat(parts[0], Join(parts[1..], sep), sep);
      SplitWithoutSeparator(parts[0], sep);
    }
  }

  /** On non-empty lists of separator-free parts, `join` loses nothing. */
  lemma JoinInjective(p: seq<string>, q: seq<string>, sep: char)
    requires |p| > 0 && |q| > 0 && NoneContains(p, sep) && NoneContains(q, sep)
    requires Join(p, sep) == Join(q, sep)
    ensures p == q
  {
    SplitJoin(p, sep);
    SplitJoin(q, sep);
  }

  lemma Associative<T>(a: seq<T>, b: seq<T>, c: seq<T>)
    ensures a + (b + c) == a + b + c
  {
  }

  // ---- trimming, for whatever counts as white space --------------------------------

  function TrimLeftBy(s: string, space: char -> bool): (r: string)
    ensures |r| <= |s| && (|r| > 0 ==> !space(r[0]))
  {
    if |s| > 0 && space(s[0]) then TrimLeftBy(s[1..], space) else s
  }

  function TrimRightBy(s: string, space: char -> bool): (r: string)
    ensures |r| <= |s| && (|r| > 0 ==> !space(r[|r| - 1]) && r[0] == s[0])
  {
    if |s| > 0 && space(s[|s| - 1]) then TrimRightBy(s[..|s| - 1], space) else s
  }

  function TrimBy(s: string, space: char -> bool): (r: string)
    ensures |r| <= |s| && (|r| > 0 ==> !space(r[0]) && !space(r[|r| - 1]))
  {
    TrimRightBy(TrimLeftBy(s, space), space)
  }

  /** Trimming twice is trimming once. */
  lemma TrimByTwice(s: string, space: char -> bool)
    ensures TrimBy(TrimBy(s, space), space) == TrimBy(s, space)
  {
  }

  predicate AllOf(s: string, space: char -> bool) { forall i :: 0 <= i < |s| ==> space(s[i]) }

  /** `t` is `s` without the white space around it. */
  ghost predicate TrimmedBy(s: string, t: string, space: char -> bool) {
    && (t != "" ==> !space(t[0]) && !space(t[|t| - 1]))
    && exists lead, trail :: AllOf(lead, space) && AllOf(trail, space) && s == lead + t + trail
  }

  lemma {:induction false} LeftTrims(s: string, space: char -> bool) returns (lead: string)
    ensures AllOf(lead, space) && s == lead + TrimLeftBy(s, space)
  {
    if |s| > 0 && space(s[0]) {
      var rest := LeftTrims(s[1..], space);
      lead := [s[0]] + rest;
    } else {
      lead := "";
    }
  }

  lemma {:induction false} RightTrims(s: string, space: char -> bool) returns (trail: string)
    ensures AllOf(trail, space) && s == TrimRightBy(s, space) + trail
  {
    if |s| > 0 && space(s[|s| - 1]) {
      var rest := RightTrims(s[..|s| - 1], space);
      trail := rest + [s[|s| - 1]];
    } else {
      trail := "";
    }
  }

  /** The part between the outermost visible characters is unique. */
  lemma TrimmedOnce(a: string, t: string, b: string, c: string, u: string, d: string, space: char -> bool)
    requires AllOf(a, space) && AllOf(b, space) && AllOf(c, space) && AllOf(d, space) && a + t + b == c + u + d
    requires t != "" ==> !space(t[0]) && !space(t[|t| - 1])
    requires u != "" ==> !space(u[0]) && !space(u[|u| - 1])
    ensures t == u
  {
    var s := a + t + b;
    if t != "" {
      assert s[|a|] == t[0] && s[|a| + |t| - 1] == t[|t| - 1];
    }
    if u != "" {
      assert s[|c|] == u[0] && s[|c| + |u| - 1] == u[|u| - 1];
    }
    forall i | 0 <= i < |s|
      ensures i < |a| || i >= |a| + |t| ==> space(s[i])
      ensures i < |c| || i >= |c| + |u| ==> space(s[i])
    {
    }
    assert t == s[|a|..|a| + |t|] && u == s[|c|..|c| + |u|];
  }

  lemma TrimByIs(s: string, t: string, space: char -> bool)
    ensures TrimBy(s, space) == t <==> TrimmedBy(s, t, space)
  {
    hide TrimLeftBy, TrimRightBy;
    var lead := LeftTrims(s, space);
    var middle := TrimLeftBy(s, space);
    var trail := RightTrims(middle, space);
    assert s == lead + TrimBy(s, space) + trail;
    if TrimmedBy(s, t, space) {
      var c, d :| AllOf(c, space) && AllOf(d, space) && s == c + t + d;
      TrimmedOnce(lead, TrimBy(s, space), trail, c, t, d, space);
    }
  }
}
