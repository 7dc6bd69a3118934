/** The JavaScript string primitives the source calls, with their ECMAScript
    semantics written out: `trim`, `indexOf`, `lastIndexOf`, `substring` and
    regex match counts. */
module JsText {

  /** The characters `\s` matches in a JavaScript regular expression; `trim`
      strips exactly the same set (WhiteSpace and LineTerminator). */
  predicate IsWhitespace(c: char) {
    || c == '\t' || c == '\n' || c == '\U{000B}' || c == '\U{000C}' || c == '\r' || c == ' '
    || c == '\U{00A0}' || c == '\U{1680}' || ('\U{2000}' <= c <= '\U{200A}')
    || c == '\U{2028}' || c == '\U{2029}' || c == '\U{202F}' || c == '\U{205F}'
    || c == '\U{3000}' || c == '\U{FEFF}'
  }

  /** Leading whitespace removed: the longest whitespace prefix goes, the rest stays. */
  function TrimStart(s: string): (r: string)
    ensures |r| <= |s| && r == s[|s| - |r|..]
    ensures forall k :: 0 <= k < |s| - |r| ==> IsWhitespace(s[k])
    ensures |r| > 0 ==> !IsWhitespace(r[0])
  {
    if |s| > 0 && IsWhitespace(s[0]) then TrimStart(s[1..]) else s
  }

  /** Trailing whitespace removed: the longest whitespace suffix goes, the rest stays. */
  function TrimEnd(s: string): (r: string)
    ensures |r| <= |s| && r == s[..|r|]
    ensures forall k :: |r| <= k < |s| ==> IsWhitespace(s[k])
    ensures |r| > 0 ==> !IsWhitespace(r[|r| - 1])
  {
    if |s| > 0 && IsWhitespace(s[|s| - 1]) then TrimEnd(s[..|s| - 1]) else s
  }

  /** `String.prototype.trim`. */
  function Trim(s: string): (r: string)
    ensures |r| > 0 ==> !IsWhitespace(r[0]) && !IsWhitespace(r[|r| - 1])
  {
    var t := TrimStart(s);
    var r := TrimEnd(t);
    if |r| == 0 then r
    else
      assert r[0] == t[0] by {
        assert r == t[..|r|];
      }
      r
  }

  lemma {:induction false} TrimStartBeforeSolid(p: string, m: string)
    requires |m| > 0 && !IsWhitespace(m[0])
    ensures TrimStart(p + m) == TrimStart(p) + m
  {
    if |p| > 0 {
      assert (p + m)[1..] == p[1..] + m;
      if IsWhitespace(p[0]) {
        TrimStartBeforeSolid(p[1..], m);
      }
    } else {
      assert p + m == m;
    }
  }

  lemma {:induction false} TrimEndAfterSolid(m: string, q: string)
    requires |m| > 0 && !IsWhitespace(m[|m| - 1])
    ensures TrimEnd(m + q) == m + TrimEnd(q)
  {
    if |q| > 0 {
      assert (m + q)[..|m + q| - 1] == m + q[..|q| - 1];
      if IsWhitespace(q[|q| - 1]) {
        TrimEndAfterSolid(m, q[..|q| - 1]);
      }
    } else {
      assert m + q == m;
    }
  }

  /** Trimming text whose middle part starts and ends with a non-blank character
      only ever eats into the text on either side of it. */
  lemma TrimAroundSolid(p: string, m: string, q: string)
    requires |m| > 0 && !IsWhitespace(m[0]) && !IsWhitespace(m[|m| - 1])
    ensures Trim(p + m + q) == TrimStart(p) + m + TrimEnd(q)
  {
    assert p + m + q == p + (m + q);
    TrimStartBeforeSolid(p, m + q);
    assert TrimStart(p) + (m + q) == (TrimStart(p) + m) + q;
    TrimEndAfterSolid(TrimStart(p) + m, q);
  }

  /** Every character of s is whitespace. */
  predicate AllWhitespace(s: string) {
    forall k :: 0 <= k < |s| ==> IsWhitespace(s[k])
  }

  /** Blank text trims away entirely from either side. */
  lemma BlankTrimsAway(s: string)
    requires AllWhitespace(s)
    ensures TrimStart(s) == "" && TrimEnd(s) == ""
  {
  }

  /** The scan behind `indexOf`: the first position at or after i holding c,
      or -1. */
  function IndexFrom(s: string, c: char, i: nat): (r: int)
    requires i <= |s|
    ensures r == -1 || i <= r < |s|
    ensures r == -1 ==> forall j :: i <= j < |s| ==> s[j] != c
    ensures r >= 0 ==> s[r] == c && forall j :: i <= j < r ==> s[j] != c
    decreases |s| - i
  {
    if i == |s| then -1
    else if s[i] == c then i
    else IndexFrom(s, c, i + 1)
  }

  /** `s.indexOf(c)`: the first position holding c, or -1. */
  function IndexOf(s: string, c: char): (r: int)
    ensures -1 <= r < |s|
    ensures r == -1 <==> c !in s
    ensures r >= 0 ==> s[r] == c && forall j :: 0 <= j < r ==> s[j] != c
  {
    IndexFrom(s, c, 0)
  }

  /** The scan behind `lastIndexOf`: the last position before n holding c,
      or -1. */
  function LastIndexBefore(s: string, c: char, n: nat): (r: int)
    requires n <= |s|
    ensures r == -1 || 0 <= r < n
    ensures r == -1 ==> forall j :: 0 <= j < n ==> s[j] != c
    ensures r >= 0 ==> s[r] == c && forall j :: r < j < n ==> s[j] != c
  {
    if n == 0 then -1
    else if s[n - 1] == c then n - 1
    else LastIndexBefore(s, c, n - 1)
  }

  /** `s.lastIndexOf(c)`: the last position holding c, or -1. */
  function LastIndexOf(s: string, c: char): (r: int)
    ensures -1 <= r < |s|
    ensures r == -1 <==> c !in s
    ensures r >= 0 ==> s[r] == c && forall j :: r < j < |s| ==> s[j] != c
  {
    LastIndexBefore(s, c, |s|)
  }

  /** A position holding c with no c before it is what `indexOf` finds. */
  lemma IndexOfIs(s: string, c: char, k: int)
    requires 0 <= k < |s| && s[k] == c
    requires forall j :: 0 <= j < k ==> s[j] != c
    ensures IndexOf(s, c) == k
  {
  }

  /** A position holding c with no c after it is what `lastIndexOf` finds. */
  lemma LastIndexOfIs(s: string, c: char, k: int)
    requires 0 <= k < |s| && s[k] == c
    requires forall j :: k < j < |s| ==> s[j] != c
    ensures LastIndexOf(s, c) == k
  {
  }

  /** `(s.match(/c/g) || []).length`: how many times the character occurs. */
  function CountOf(s: string, c: char): (r: nat)
    ensures r == multiset(s)[c]
  {
    if |s| == 0 then 0
    else
      assert s == [s[0]] + s[1..];
      (if s[0] == c then 1 else 0) + CountOf(s[1..], c)
  }

  /** An index argument of `substring`, clamped into [0, n]. */
  function Clamp(i: int, n: nat): (r: nat)
    ensures r <= n
    ensures 0 <= i <= n ==> r == i
  {
    if i < 0 then 0 else if i > n then n else i
  }

  /** `s.substring(start, end)`: both indices are clamped into the string, and
      when the end lies before the start the two are swapped. */
  function Substring(s: string, start: int, end: int): (r: string)
    ensures 0 <= start <= end <= |s| ==> r == s[start..end]
    ensures 0 <= end <= start <= |s| ==> r == s[end..start]
  {
    var a := Clamp(start, |s|);
    var b := Clamp(end, |s|);
    if a <= b then s[a..b] else s[b..a]
  }
}
