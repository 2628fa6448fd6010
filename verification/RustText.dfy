/** Rust's view of white space, and the string order behind `sort`. */
module RustText {
  import opened Text

  datatype Option<T> = None | Some(value: T)

  /** `char::is_whitespace`: the Unicode property White_Space. */
  predicate IsWhite(c: char) {
    || ('\t' <= c <= '\r') || c == ' ' || c == '\U{0085}' || c == '\U{00A0}' || c == '\U{1680}'
    || ('\U{2000}' <= c <= '\U{200A}') || c == '\U{2028}' || c == '\U{2029}'
    || c == '\U{202F}' || c == '\U{205F}' || c == '\U{3000}'
  }

  /** `s.trim()`. */
  function Trim(s: string): string { TrimBy(s, IsWhite) }

  /** `s.trim().is_empty()`. */
  predicate IsBlank(s: string) { Trim(s) == "" }

  /** The same without the trimming: nothing visible in it. */
  predicate Blank(s: string) { forall i :: 0 <= i < |s| ==> IsWhite(s[i]) }

  lemma {:induction false} BlankIsBlank(s: string)
    ensures IsBlank(s) <==> Blank(s)
  {
    if |s| > 0 {
      if IsWhite(s[0]) {
        BlankIsBlank(s[1..]);
        assert Blank(s) <==> Blank(s[1..]) by {
          assert s == [s[0]] + s[1..];
        }
      } else {
        VisibleStart(s);
      }
    }
  }

  lemma TrimTwice(s: string)
    ensures Trim(Trim(s)) == Trim(s)
  {
    TrimByTwice(s, IsWhite);
  }

  /** Text that starts with something visible is not blank. */
  lemma VisibleStart(s: string)
    requires |s| > 0 && !IsWhite(s[0])
    ensures !IsBlank(s)
  {
    TrimRightKeeps(s);
  }

  lemma {:induction false} TrimRightKeeps(s: string)
    requires |s| > 0 && !IsWhite(s[0])
    ensures |TrimRightBy(s, IsWhite)| > 0
  {
    if IsWhite(s[|s| - 1]) {
      TrimRightKeeps(s[..|s| - 1]);
    }
  }

  /** `a < b` on strings, character by character. */
  predicate Less(a: string, b: string) {
    if |b| == 0 then false
    else if |a| == 0 then true
    else a[0] < b[0] || (a[0] == b[0] && Less(a[1..], b[1..]))
  }

  lemma {:induction false} LessTotal(a: string, b: string)
    ensures a == b || Less(a, b) || Less(b, a)
    ensures !(Less(a, b) && Less(b, a)) && !Less(a, a)
  {
    if |a| > 0 && |b| > 0 {
      LessTotal(a[1..], b[1..]);
      if a[0] == b[0] && a[1..] == b[1..] {
        assert a == [a[0]] + a[1..] && b == [b[0]] + b[1..];
      }
    }
    if |a| > 0 { LessTotal(a[1..], a[1..]); }
  }

  lemma {:induction false} LessTransitive(a: string, b: string, c: string)
    requires Less(a, b) && Less(b, c)
    ensures Less(a, c)
  {
    if |a| > 0 && a[0] == b[0] == c[0] {
      LessTransitive(a[1..], b[1..], c[1..]);
    }
  }

  ghost predicate Ascending(s: seq<string>) {
    forall i, j :: 0 <= i < j < |s| ==> Less(s[i], s[j])
  }

  /** Into an ascending list, once. */
  function Insert(s: seq<string>, k: string): (r: seq<string>)
    ensures forall x :: x in r <==> x in s || x == k
  {
    if |s| == 0 then [k]
    else if k == s[0] then s
    else if Less(k, s[0]) then [k] + s
    else [s[0]] + Insert(s[1..], k)
  }

  lemma {:induction false} InsertAscending(s: seq<string>, k: string)
    requires Ascending(s)
    ensures Ascending(Insert(s, k))
  {
    if |s| > 0 && k != s[0] {
      LessTotal(k, s[0]);
      if Less(k, s[0]) {
        forall j | 0 <= j < |s| ensures Less(k, s[j]) {
          if j > 0 { LessTransitive(k, s[0], s[j]); }
        }
      } else {
        InsertAscending(s[1..], k);
        var rest := Insert(s[1..], k);
        forall j | 0 <= j < |rest| ensures Less(s[0], rest[j]) {
          assert rest[j] in s[1..] || rest[j] == k;
        }
      }
    }
  }
}
