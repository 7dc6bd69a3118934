/** The POSIX flavour of Node's `path.extname`, which bot.js uses to keep the
    extension of the file Telegram stores for a photo. */
module PosixPath {
  import opened JsText

  /** The path without the run of '/' at its end. */
  function StripTrailingSlashes(p: string): (r: string)
    ensures r <= p
    ensures |r| == 0 || r[|r| - 1] != '/'
    ensures forall i :: |r| <= i < |p| ==> p[i] == '/'
  {
    if |p| > 0 && p[|p| - 1] == '/' then StripTrailingSlashes(p[..|p| - 1]) else p
  }

  /** The last component: what follows the last '/' once trailing slashes are
      dropped. */
  function BaseName(p: string): (b: string)
    ensures forall i :: 0 <= i < |b| ==> b[i] != '/'
    ensures |b| <= |StripTrailingSlashes(p)|
  {
    var s := StripTrailingSlashes(p);
    var k := LastIndexOf(s, '/');
    s[k + 1..]
  }

  /** The component "..", the parent directory. */
  predicate IsParent(b: string) {
    |b| == 2 && b[0] == '.' && b[1] == '.'
  }

  /** `path.extname`: from the last '.' of the last component to its end, or ""
      when that component has no '.' after its first character or is "..". */
  function ExtName(p: string): (e: string)
    ensures var b := BaseName(p);
      && |e| <= |b| && (forall i :: 0 <= i < |e| ==> e[i] == b[|b| - |e| + i])
      && (|e| == 0 <==> IsParent(b) || forall d :: 0 < d < |b| ==> b[d] != '.')
    ensures |e| == 0 || (e[0] == '.' && forall i :: 0 < i < |e| ==> e[i] != '.' && e[i] != '/')
  {
    var b := BaseName(p);
    var d := LastIndexOf(b, '.');
    if d <= 0 || IsParent(b) then ""
    else
      var e := b[d..];
      assert forall i :: 0 < i < |e| ==> e[i] == b[d + i];
      e
  }

  /** A file name stem.ext in any directory has the extension ".ext". */
  lemma ExtNameOfFile(dir: string, stem: string, ext: string, p: string)
    requires |stem| > 0 && |ext| > 0
    requires forall i :: 0 <= i < |stem| ==> stem[i] != '/'
    requires forall i :: 0 <= i < |ext| ==> ext[i] != '/' && ext[i] != '.'
    requires p == dir + ['/'] + stem + ['.'] + ext
    ensures ExtName(p) == ['.'] + ext
  {
    var b := stem + ['.'] + ext;
    assert p == dir + ['/'] + b;
    DottedName(stem, ext, b);
    BaseNameAfterSlash(dir, b, p);
  }

  /** In stem.ext the last '.' is the one before ext. */
  lemma DottedName(stem: string, ext: string, b: string)
    requires |stem| > 0 && |ext| > 0
    requires forall i :: 0 <= i < |stem| ==> stem[i] != '/'
    requires forall i :: 0 <= i < |ext| ==> ext[i] != '/' && ext[i] != '.'
    requires b == stem + ['.'] + ext
    ensures |b| > 0 && forall i :: 0 <= i < |b| ==> b[i] != '/'
    ensures LastIndexOf(b, '.') == |stem|
    ensures b[|stem|..] == ['.'] + ext
    ensures !IsParent(b)
  {
    forall i | |stem| < i < |b|
      ensures b[i] == ext[i - |stem| - 1]
    {
    }
    LastIndexOfIs(b, '.', |stem|);
  }

  /** A slash-free, non-empty name after a '/' is the last component. */
  lemma BaseNameAfterSlash(dir: string, b: string, p: string)
    requires |b| > 0 && forall i :: 0 <= i < |b| ==> b[i] != '/'
    requires p == dir + ['/'] + b
    ensures BaseName(p) == b
  {
    assert StripTrailingSlashes(p) == p by {
      assert p[|p| - 1] == b[|b| - 1];
    }
    assert p[|dir|] == '/';
    forall j | |dir| < j < |p|
      ensures p[j] != '/'
    {
      assert p[j] == b[j - |dir| - 1];
    }
    LastIndexOfIs(p, '/', |dir|);
    assert p[|dir| + 1..] == b;
  }

  /** A last component without any '.' has no extension. */
  lemma ExtNameWithoutDot(p: string)
    requires forall i :: 0 <= i < |BaseName(p)| ==> BaseName(p)[i] != '.'
    ensures |ExtName(p)| == 0
  {
  }
}
