/** Longest common subsequences, and edit scripts as the reference they are measured against. */
module Lcs {

  function Max(x: nat, y: nat): nat { if x >= y then x else y }

  /** The recurrence the diff table tabulates (frontend/js/diff-core.js:22-25). */
  function Length<T(==)>(a: seq<T>, b: seq<T>): nat
    decreases |a| + |b|
  {
    if |a| == 0 || |b| == 0 then 0
    else if a[0] == b[0] then Length(a[1..], b[1..]) + 1
    else Max(Length(a[1..], b), Length(a, b[1..]))
  }

  /** `c` can be read off `s` by skipping elements. */
  ghost predicate IsSubsequence<T>(c: seq<T>, s: seq<T>)
    decreases |s|
  {
    |c| == 0 ||
    (|s| > 0 && (IsSubsequence(c, s[1..]) || (c[0] == s[0] && IsSubsequence(c[1..], s[1..]))))
  }

  lemma {:induction false} DropHead<T>(c: seq<T>, s: seq<T>)
    requires |c| > 0 && IsSubsequence(c, s)
    ensures |s| > 0 && IsSubsequence(c[1..], s[1..])
    decreases |s|
  {
    if IsSubsequence(c, s[1..]) {
      DropHead(c, s[1..]);
      assert IsSubsequence(c[1..], s[1..]);
    }
  }

  /** No common subsequence is longer than the recurrence says. */
  lemma {:induction false} UpperBound<T>(c: seq<T>, a: seq<T>, b: seq<T>)
    requires IsSubsequence(c, a) && IsSubsequence(c, b)
    ensures |c| <= Length(a, b)
    decreases |a| + |b|
  {
    if |c| > 0 {
      DropHead(c, a);
      DropHead(c, b);
      if a[0] == b[0] {
        UpperBound(c[1..], a[1..], b[1..]);
      } else if c[0] != a[0] {
        UpperBound(c, a[1..], b);
      } else {
        UpperBound(c, a, b[1..]);
      }
    }
  }

  /** Some common subsequence is as long as the recurrence says. */
  lemma {:induction false} Attained<T>(a: seq<T>, b: seq<T>) returns (c: seq<T>)
    ensures IsSubsequence(c, a) && IsSubsequence(c, b) && |c| == Length(a, b)
    decreases |a| + |b|
  {
    if |a| == 0 || |b| == 0 {
      c := [];
    } else if a[0] == b[0] {
      var d := Attained(a[1..], b[1..]);
      c := [a[0]] + d;
      assert c[1..] == d;
    } else if Length(a[1..], b) >= Length(a, b[1..]) {
      c := Attained(a[1..], b);
    } else {
      c := Attained(a, b[1..]);
    }
  }

  lemma {:induction false} LengthBound<T>(a: seq<T>, b: seq<T>)
    ensures Length(a, b) <= |a| && Length(a, b) <= |b|
    decreases |a| + |b|
  {
    if |a| > 0 && |b| > 0 {
      if a[0] == b[0] {
        LengthBound(a[1..], b[1..]);
      } else {
        LengthBound(a[1..], b);
        LengthBound(a, b[1..]);
      }
    }
  }

  // ---- a common head or tail can be set aside ---------------------------

  lemma {:induction false} CommonPrefix<T>(p: seq<T>, a: seq<T>, b: seq<T>)
    ensures Length(p + a, p + b) == |p| + Length(a, b)
  {
    if |p| == 0 {
      assert p + a == a && p + b == b;
    } else {
      assert (p + a)[1..] == p[1..] + a && (p + b)[1..] == p[1..] + b;
      CommonPrefix(p[1..], a, b);
    }
  }

  /** A subsequence of `s + [e]`, with its last element given up, is one of `s`. */
  lemma {:induction false} DropLast<T>(c: seq<T>, s: seq<T>, e: T)
    requires |c| > 0 && IsSubsequence(c, s + [e])
    ensures IsSubsequence(c[..|c| - 1], s)
    decreases |s|
  {
    if |s| == 0 {
      assert (s + [e])[1..] == [];
    } else {
      assert (s + [e])[1..] == s[1..] + [e];
      if IsSubsequence(c, s[1..] + [e]) {
        DropLast(c, s[1..], e);
      } else if |c| > 1 {
        DropLast(c[1..], s[1..], e);
        assert c[1..][..|c| - 2] == c[..|c| - 1][1..];
      }
    }
  }

  lemma {:induction false} AppendBoth<T>(c: seq<T>, s: seq<T>, e: T)
    requires IsSubsequence(c, s)
    ensures IsSubsequence(c + [e], s + [e])
    decreases |s|
  {
    if |s| == 0 {
      assert c + [e] == [e] && s + [e] == [e];
      assert IsSubsequence([e][1..], [e][1..]);
    } else {
      assert (s + [e])[1..] == s[1..] + [e];
      if IsSubsequence(c, s[1..]) {
        AppendBoth(c, s[1..], e);
      } else {
        AppendBoth(c[1..], s[1..], e);
        assert (c + [e])[1..] == c[1..] + [e];
      }
    }
  }

  lemma {:induction false} CommonSuffix<T>(a: seq<T>, b: seq<T>, s: seq<T>)
    ensures Length(a + s, b + s) == Length(a, b) + |s|
    decreases |s|
  {
    if |s| == 0 {
      assert a + s == a && b + s == b;
    } else {
      var e, rest := s[0], s[1..];
      assert a + s == (a + [e]) + rest && b + s == (b + [e]) + rest;
      CommonSuffix(a + [e], b + [e], rest);
      var c := Attained(a, b);
      AppendBoth(c, a, e);
      AppendBoth(c, b, e);
      UpperBound(c + [e], a + [e], b + [e]);
      var d := Attained(a + [e], b + [e]);
      DropLast(d, a, e);
      DropLast(d, b, e);
      UpperBound(d[..|d| - 1], a, b);
    }
  }

  lemma {:induction false} SharedElement<T>(a: seq<T>, b: seq<T>, x: T)
    requires x in a && x in b
    ensures Length(a, b) > 0
  {
    SingletonSubsequence(a, x);
    SingletonSubsequence(b, x);
    UpperBound([x], a, b);
  }

  lemma {:induction false} SingletonSubsequence<T>(s: seq<T>, x: T)
    requires x in s
    ensures IsSubsequence([x], s)
  {
    if s[0] != x {
      SingletonSubsequence(s[1..], x);
    }
  }

  lemma {:induction false} NoSharedElement<T>(a: seq<T>, b: seq<T>)
    requires forall x :: x in a ==> x !in b
    ensures Length(a, b) == 0
    decreases |a| + |b|
  {
    if |a| > 0 && |b| > 0 {
      assert a[0] in a && b[0] in b;
      NoSharedElement(a[1..], b);
      NoSharedElement(a, b[1..]);
    }
  }
}
