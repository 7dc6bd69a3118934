/** Removal of Markdown code-fence markers (the ``` and ```json lines that open
    and close a fenced code block, section 4.5 of the CommonMark specification)
    by a global regular-expression replace with the empty string. */
module Fences {
  import opened JsText

  /** The bare fence marker. */
  const Fence: string := "```"

  /** The fence marker with the `json` info string. */
  const JsonFence: string := "```json"

  /** What the pattern accepts right after the marker: `\s*` (every whitespace
      character that follows) or `\n?` (at most one line feed). */
  datatype Tail = AnyWhitespace | OptionalNewline

  /** Length of the text the tail pattern consumes at the start of s. */
  function TailLength(s: string, tail: Tail): (n: nat)
    ensures n <= |s|
    ensures forall k :: 0 <= k < n ==> IsWhitespace(s[k])
    ensures tail.AnyWhitespace? ==> n == |s| || !IsWhitespace(s[n])
    ensures tail.OptionalNewline? ==> n <= 1
  {
    match tail
    case AnyWhitespace => if |s| > 0 && IsWhitespace(s[0]) then 1 + TailLength(s[1..], tail) else 0
    case OptionalNewline => if |s| > 0 && s[0] == '\n' then 1 else 0
  }

  /** A fence marker begins at position i of s. */
  predicate FenceAt(s: string, i: int) {
    0 <= i <= |s| && Fence <= s[i..]
  }

  /** s contains the substring ```. */
  predicate ContainsFence(s: string) {
    exists i | 0 <= i <= |s| :: FenceAt(s, i)
  }

  /** `s.replace(/<marker><tail>/g, '')`: scanning left to right, each leftmost
      occurrence of the marker is dropped together with what the tail pattern
      accepts after it, and scanning resumes after the match. */
  function RemoveAll(s: string, marker: string, tail: Tail): (r: string)
    requires Fence <= marker
    ensures |r| <= |s|
    decreases |s|
  {
    if |s| == 0 then ""
    else if marker <= s then
      var rest := s[|marker|..];
      RemoveAll(rest[TailLength(rest, tail)..], marker, tail)
    else [s[0]] + RemoveAll(s[1..], marker, tail)
  }

  /** One match step: a marker followed by exactly the text its tail pattern
      accepts is dropped, and scanning resumes right after it. */
  lemma SkipMarker(marker: string, ws: string, t: string, tail: Tail)
    requires Fence <= marker
    requires TailLength(ws + t, tail) == |ws|
    ensures RemoveAll(marker + ws + t, marker, tail) == RemoveAll(t, marker, tail)
  {
    var s := marker + ws + t;
    assert marker <= s;
    assert s[|marker|..] == ws + t;
    assert (ws + t)[|ws|..] == t;
  }

  /** A single line feed before a non-blank character is what either tail
      pattern consumes. */
  lemma OneNewline(t: string, tail: Tail)
    requires |t| > 0 && !IsWhitespace(t[0])
    ensures TailLength("\n" + t, tail) == 1
  {
    assert ("\n" + t)[0] == '\n';
    assert ("\n" + t)[1] == t[0];
  }

  /** The replace only deletes: every character of the result was a character
      of the input. */
  lemma {:induction false} RemoveAllChars(s: string, marker: string, tail: Tail, c: char)
    requires Fence <= marker
    ensures c in RemoveAll(s, marker, tail) ==> c in s
    decreases |s|
  {
    if |s| == 0 {
    } else if marker <= s {
      var rest := s[|marker|..];
      var n := TailLength(rest, tail);
      RemoveAllChars(rest[n..], marker, tail, c);
      assert rest[n..] == s[|marker| + n..];
      if c in rest[n..] {
        var j :| 0 <= j < |rest[n..]| && rest[n..][j] == c;
        assert s[|marker| + n + j] == c;
      }
    } else {
      RemoveAllChars(s[1..], marker, tail, c);
      if c in s[1..] {
        var j :| 0 <= j < |s[1..]| && s[1..][j] == c;
        assert s[j + 1] == c;
      }
    }
  }

  /** A text that does not start with a backtick keeps its first character. */
  lemma FirstCharKept(t: string, marker: string, tail: Tail)
    requires Fence <= marker
    requires |t| > 0 && t[0] != '`'
    ensures |RemoveAll(t, marker, tail)| > 0 && RemoveAll(t, marker, tail)[0] == t[0]
  {
    assert marker[0] == '`';
  }

  /** Text that does not start with two backticks does not come out starting
      with two backticks. */
  lemma NoLeadingTicksKept(t: string, tail: Tail)
    requires !(|t| >= 2 && t[0] == '`' && t[1] == '`')
    ensures var r := RemoveAll(t, Fence, tail); !(|r| >= 2 && r[0] == '`' && r[1] == '`')
  {
    if |t| > 0 && t[0] != '`' {
      FirstCharKept(t, Fence, tail);
    } else if |t| >= 2 {
      assert !(Fence <= t);
      assert RemoveAll(t, Fence, tail) == [t[0]] + RemoveAll(t[1..], Fence, tail);
      FirstCharKept(t[1..], Fence, tail);
    }
  }

  /** After `replace(/```<tail>/g, '')` no ``` is left, even where the removal
      brings backticks from both sides of a match together. */
  lemma {:induction false} NoFenceLeft(s: string, tail: Tail)
    ensures !ContainsFence(RemoveAll(s, Fence, tail))
    decreases |s|
  {
    if |s| == 0 {
    } else if Fence <= s {
      var rest := s[|Fence|..];
      NoFenceLeft(rest[TailLength(rest, tail)..], tail);
    } else {
      var t := s[1..];
      NoFenceLeft(t, tail);
      if s[0] == '`' {
        assert |s| < 3 || s[1] != '`' || s[2] != '`' by {
          if |s| >= 3 {
            assert s[..3] == [s[0], s[1], s[2]];
          }
        }
        NoLeadingTicksKept(t, tail);
      }
      ConsNoFence(s[0], RemoveAll(t, Fence, tail));
    }
  }

  /** Putting a character in front of a fence-free text makes a fence only when
      the character and the text's first two are all backticks. */
  lemma ConsNoFence(x: char, t: string)
    requires !ContainsFence(t)
    requires !(x == '`' && |t| >= 2 && t[0] == '`' && t[1] == '`')
    ensures !ContainsFence([x] + t)
  {
    var r := [x] + t;
    forall i | 0 <= i <= |r|
      ensures !FenceAt(r, i)
    {
      if i > 0 {
        assert r[i..] == t[i - 1..];
        assert !FenceAt(t, i - 1);
      } else if |r| >= 3 {
        assert r[0] == x && r[1] == t[0] && r[2] == t[1];
        assert r[i..][..3] == r[..3];
      }
    }
  }

  lemma {:induction false} TailLengthBeforeSolid(s: string, b: string, tail: Tail)
    requires |b| > 0 && !IsWhitespace(b[0])
    ensures TailLength(s + b, tail) == TailLength(s, tail)
    decreases |s|
  {
    if |s| == 0 {
      assert s + b == b;
    } else {
      assert (s + b)[1..] == s[1..] + b;
      if tail.AnyWhitespace? && IsWhitespace(s[0]) {
        TailLengthBeforeSolid(s[1..], b, tail);
      }
    }
  }

  /** A marker at the start of a + b lies wholly inside a when b's first
      character does not occur in the marker. */
  lemma MarkerWithinLeft(a: string, b: string, marker: string)
    requires |b| > 0 && b[0] !in marker
    requires marker <= a + b
    ensures marker <= a
  {
    assert forall k :: 0 <= k < |marker| ==> marker[k] == (a + b)[k];
    assert (a + b)[|a|] == b[0];
  }

  /** When b starts with a character that can neither continue a marker nor be
      swallowed by the tail, the replace treats a and b independently. */
  lemma {:induction false} RemoveAllSplit(a: string, b: string, marker: string, tail: Tail)
    requires Fence <= marker
    requires |b| > 0 && b[0] !in marker && !IsWhitespace(b[0])
    ensures RemoveAll(a + b, marker, tail) == RemoveAll(a, marker, tail) + RemoveAll(b, marker, tail)
    decreases |a|
  {
    if |a| == 0 {
      assert a + b == b;
    } else if marker <= a + b {
      MarkerWithinLeft(a, b, marker);
      SplitAfterMarker(a, b, marker, tail);
    } else {
      assert (a + b)[1..] == a[1..] + b;
      RemoveAllSplit(a[1..], b, marker, tail);
    }
  }

  /** The step of RemoveAllSplit where a starts with the marker. */
  lemma {:induction false} SplitAfterMarker(a: string, b: string, marker: string, tail: Tail)
    requires Fence <= marker && marker <= a
    requires |b| > 0 && b[0] !in marker && !IsWhitespace(b[0])
    ensures RemoveAll(a + b, marker, tail) == RemoveAll(a, marker, tail) + RemoveAll(b, marker, tail)
    decreases |a|, 0
  {
    var ra := a[|marker|..];
    var n := TailLength(ra, tail);
    assert marker <= a + b;
    assert (a + b)[|marker|..] == ra + b;
    TailLengthBeforeSolid(ra, b, tail);
    assert (ra + b)[n..] == ra[n..] + b;
    assert RemoveAll(a + b, marker, tail) == RemoveAll(ra[n..] + b, marker, tail);
    assert RemoveAll(a, marker, tail) == RemoveAll(ra[n..], marker, tail);
    RemoveAllSplit(ra[n..], b, marker, tail);
  }

  /** Text in which no marker begins is copied to the output unchanged. */
  lemma {:induction false} RemoveAllKeepsUnmatched(a: string, b: string, marker: string, tail: Tail)
    requires Fence <= marker
    requires forall i :: 0 <= i < |a| ==> !(marker <= (a + b)[i..])
    ensures RemoveAll(a + b, marker, tail) == a + RemoveAll(b, marker, tail)
    decreases |a|
  {
    if |a| == 0 {
      assert a + b == b;
    } else {
      assert (a + b)[0..] == a + b;
      assert (a + b)[1..] == a[1..] + b;
      forall i | 0 <= i < |a[1..]|
        ensures !(marker <= (a[1..] + b)[i..])
      {
        assert (a[1..] + b)[i..] == (a + b)[i + 1..];
      }
      RemoveAllKeepsUnmatched(a[1..], b, marker, tail);
    }
  }

  /** No marker (every marker starts with ```) begins inside a fence-free text
      that does not end with a backtick, whatever follows it. */
  lemma NoMarkerInside(a: string, b: string, marker: string)
    requires Fence <= marker
    requires !ContainsFence(a)
    requires |a| > 0 ==> a[|a| - 1] != '`'
    ensures forall i :: 0 <= i < |a| ==> !(marker <= (a + b)[i..])
  {
    forall i | 0 <= i < |a|
      ensures !(marker <= (a + b)[i..])
    {
      if i + 3 <= |a| {
        assert (a + b)[i..][..3] == a[i..][..3];
        assert !FenceAt(a, i);
      } else {
        assert (a + b)[i..][|a| - 1 - i] == a[|a| - 1];
      }
    }
  }

  /** ```json cannot begin inside a fence-free text followed by ```: a match
      starting in its last two characters would need a 'j' where the following
      fence has a backtick. */
  lemma NoJsonFenceBeforeFence(a: string, b: string)
    requires !ContainsFence(a)
    requires Fence <= b
    ensures forall i :: 0 <= i < |a| ==> !(JsonFence <= (a + b)[i..])
  {
    forall i | 0 <= i < |a|
      ensures !(JsonFence <= (a + b)[i..])
    {
      if i + 3 <= |a| {
        assert (a + b)[i..][..3] == a[i..][..3];
        assert !FenceAt(a, i);
      } else {
        assert (a + b)[i..][3] == b[i + 3 - |a|];
      }
    }
  }

  /** A fence-free text passes through unchanged. */
  lemma RemoveAllIdentity(s: string, marker: string, tail: Tail)
    requires Fence <= marker
    requires !ContainsFence(s)
    ensures RemoveAll(s, marker, tail) == s
  {
    forall i | 0 <= i < |s|
      ensures !(marker <= (s + "")[i..])
    {
      assert s + "" == s;
      if marker <= s[i..] {
        assert FenceAt(s, i);
      }
    }
    RemoveAllKeepsUnmatched(s, "", marker, tail);
    assert s + "" == s;
  }

  /** Gluing two fence-free texts cannot form a fence when the right one starts
      with something other than a backtick. */
  lemma ConcatNoFence(a: string, b: string)
    requires !ContainsFence(a) && !ContainsFence(b)
    requires |b| > 0 && b[0] != '`'
    ensures !ContainsFence(a + b)
  {
    forall i | 0 <= i <= |a + b|
      ensures !FenceAt(a + b, i)
    {
      if i + 3 <= |a| {
        assert (a + b)[i..][..3] == a[i..][..3];
        assert !FenceAt(a, i);
      } else if i >= |a| {
        assert (a + b)[i..] == b[i - |a|..];
        assert !FenceAt(b, i - |a|);
      } else if i + 3 <= |a + b| {
        assert (a + b)[i..][|a| - i] == b[0];
      }
    }
  }

  /** A suffix of a fence-free text is fence-free. */
  lemma SuffixNoFence(a: string, k: nat)
    requires k <= |a|
    requires !ContainsFence(a)
    ensures !ContainsFence(a[k..])
  {
    forall i | 0 <= i <= |a[k..]|
      ensures !FenceAt(a[k..], i)
    {
      assert a[k..][i..] == a[k + i..];
      assert !FenceAt(a, k + i);
    }
  }
}
