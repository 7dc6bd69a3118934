/** The response-cleaning pipeline of services/replicateService.js:
    `extractInvoiceData` (photo path, with the brace/bracket balance check) and
    `extractInvoiceDataFromText` (voice-transcription path, without it). */
module ReplicateNormalizer {
  import opened Wrappers
  import opened Json
  import opened JsText
  import opened Fences
  import opened Extraction

  /** What `replicate.run` resolves to: an array of text chunks, or one value. */
  datatype ModelOutput = Chunks(chunks: seq<string>) | Single(text: string)

  const NoJsonMessage: string := "No valid JSON object found in response"
  const IncompleteMessage: string := "Incomplete JSON response from API. Please try again."

  /** `chunks.join('')`. */
  function Join(chunks: seq<string>): string
  {
    if |chunks| == 0 then "" else chunks[0] + Join(chunks[1..])
  }

  /** Joining is concatenation in order with nothing in between: one chunk
      joins to itself and joining splits over any cut of the array. */
  lemma {:induction false} JoinConcatenates(a: seq<string>, b: seq<string>)
    ensures Join(a + b) == Join(a) + Join(b)
    ensures |a| == 1 ==> Join(a) == a[0]
  {
    if |a| == 0 {
      assert a + b == b;
    } else {
      assert (a + b)[1..] == a[1..] + b;
      JoinConcatenates(a[1..], b);
    }
    if |a| == 1 {
      assert Join(a[1..]) == "";
    }
  }

  /** Where chunk k starts in the joined text: the total length of the chunks
      before it. */
  function Offset(chunks: seq<string>, k: nat): nat
    requires k <= |chunks|
  {
    if k == 0 then 0 else |chunks[0]| + Offset(chunks[1..], k - 1)
  }

  /** The joined text is as long as all chunks together and holds chunk k,
      unchanged, at its offset. */
  lemma {:induction false} JoinPlacesChunks(chunks: seq<string>)
    ensures |Join(chunks)| == Offset(chunks, |chunks|)
    ensures forall k :: 0 <= k < |chunks| ==>
      Offset(chunks, k) + |chunks[k]| <= |Join(chunks)| && Join(chunks)[Offset(chunks, k)..Offset(chunks, k) + |chunks[k]|] == chunks[k]
  {
    if |chunks| > 0 {
      var tail := chunks[1..];
      JoinPlacesChunks(tail);
      var j := Join(chunks);
      assert j == chunks[0] + Join(tail);
      forall k | 0 <= k < |chunks|
        ensures Offset(chunks, k) + |chunks[k]| <= |j| && j[Offset(chunks, k)..Offset(chunks, k) + |chunks[k]|] == chunks[k]
      {
        if k == 0 {
          assert j[..|chunks[0]|] == chunks[0];
        } else {
          var o := Offset(tail, k - 1);
          assert chunks[k] == tail[k - 1];
          assert j[|chunks[0]| + o..|chunks[0]| + o + |chunks[k]|] == Join(tail)[o..o + |chunks[k]|];
        }
      }
    }
  }

  /** `Array.isArray(output) ? output.join('') : output.toString()`: a single
      value is its own text, and an array's chunks lie one after another, in
      order and with nothing in between. */
  function ResponseText(output: ModelOutput): (t: string)
    ensures output.Single? ==> t == output.text
    ensures output.Chunks? ==> |t| == Offset(output.chunks, |output.chunks|)
    ensures output.Chunks? ==> forall k :: 0 <= k < |output.chunks| ==>
      Offset(output.chunks, k) + |output.chunks[k]| <= |t| &&
      t[Offset(output.chunks, k)..Offset(output.chunks, k) + |output.chunks[k]|] == output.chunks[k]
  {
    match output
    case Chunks(cs) =>
      JoinPlacesChunks(cs);
      Join(cs)
    case Single(t) => t
  }

  // `text.trim()`, then the global replaces of ```json\s* and of ```\s* by ''.
  function Clean(text: string): (r: string)
    ensures !ContainsFence(r)
  {
    var once := RemoveAll(Trim(text), JsonFence, AnyWhitespace);
    NoFenceLeft(once, AnyWhitespace);
    RemoveAll(once, Fence, AnyWhitespace)
  }

  /** The span from the first '{' to the last '}', cut with `substring`. */
  function Locate(cleaned: string): (r: Result<string, string>)
    ensures r.Failure? <==> '{' !in cleaned || '}' !in cleaned
    ensures r.Failure? ==> r.error == NoJsonMessage
  {
    var start := IndexOf(cleaned, '{');
    var end := LastIndexOf(cleaned, '}');
    if start == -1 || end == -1 then Failure(NoJsonMessage)
    else Success(Substring(cleaned, start, end + 1))
  }

  /** The slice `JSON.parse` would receive, or the missing-brace failure. */
  function SliceOf(output: ModelOutput): Result<string, string>
  {
    Locate(Clean(ResponseText(output)))
  }

  /** The photo path's check that `{`/`}` and `[`/`]` occur equally often,
      counting with the four global matches. */
  predicate Balanced(s: string)
    ensures Balanced(s) <==> multiset(s)['{'] == multiset(s)['}'] && multiset(s)['['] == multiset(s)[']']
  {
    CountOf(s, '{') == CountOf(s, '}') && CountOf(s, '[') == CountOf(s, ']')
  }

  /** `extractInvoiceData` after the model call. */
  function ExtractInvoiceData(output: ModelOutput, parse: Parser): (e: Envelope)
    ensures e.Succeeded? <==>
      SliceOf(output).Success? && Balanced(SliceOf(output).value) && parse(SliceOf(output).value).Success?
    ensures e.Succeeded? ==> e.data == parse(SliceOf(output).value).value && e.rawResponse == ResponseText(output)
    ensures SliceOf(output).Failure? ==> e == Failed(NoJsonMessage)
    ensures SliceOf(output).Success? && !Balanced(SliceOf(output).value) ==> e == Failed(IncompleteMessage)
    ensures SliceOf(output).Success? && Balanced(SliceOf(output).value) && parse(SliceOf(output).value).Failure? ==>
      e == Failed(parse(SliceOf(output).value).error)
  {
    match SliceOf(output)
    case Failure(msg) => Failed(msg)
    case Success(slice) =>
      if !Balanced(slice) then Failed(IncompleteMessage)
      else ParseEnvelope(parse, slice, ResponseText(output))
  }

  /** `extractInvoiceDataFromText` after the model call. */
  function ExtractInvoiceDataFromText(output: ModelOutput, parse: Parser): (e: Envelope)
    ensures e.Succeeded? <==> SliceOf(output).Success? && parse(SliceOf(output).value).Success?
    ensures e.Succeeded? ==> e.data == parse(SliceOf(output).value).value && e.rawResponse == ResponseText(output)
    ensures SliceOf(output).Failure? ==> e == Failed(NoJsonMessage)
    ensures SliceOf(output).Success? && parse(SliceOf(output).value).Failure? ==>
      e == Failed(parse(SliceOf(output).value).error)
  {
    match SliceOf(output)
    case Failure(msg) => Failed(msg)
    case Success(slice) => ParseEnvelope(parse, slice, ResponseText(output))
  }

  /** When the first '{' precedes the last '}', the slice is exactly the text
      between them, both included, and no brace lies outside it on the wrong
      side. */
  lemma SliceInOrder(cleaned: string)
    requires '{' in cleaned && '}' in cleaned
    requires IndexOf(cleaned, '{') < LastIndexOf(cleaned, '}')
    ensures var start, end := IndexOf(cleaned, '{'), LastIndexOf(cleaned, '}');
      var s := Locate(cleaned).value;
      && s == cleaned[start..end + 1]
      && s[0] == '{' && s[|s| - 1] == '}'
  {
  }

  /** When the last '}' comes before the first '{', `substring` swaps its
      arguments and the slice is the brace-free text between them. */
  lemma SliceReversed(cleaned: string)
    requires '{' in cleaned && '}' in cleaned
    requires LastIndexOf(cleaned, '}') < IndexOf(cleaned, '{')
    ensures var start, end := IndexOf(cleaned, '{'), LastIndexOf(cleaned, '}');
      var s := Locate(cleaned).value;
      && s == cleaned[end + 1..start]
      && '{' !in s && '}' !in s
  {
    var start, end := IndexOf(cleaned, '{'), LastIndexOf(cleaned, '}');
    var s := cleaned[end + 1..start];
    forall j | 0 <= j < |s|
      ensures s[j] != '{' && s[j] != '}'
    {
      assert s[j] == cleaned[end + 1 + j];
    }
  }

  /** The photo path rejects an unbalanced slice before `JSON.parse` is
      reached: the outcome does not depend on the parser at all. */
  lemma UnbalancedNeverParsed(output: ModelOutput, parse1: Parser, parse2: Parser)
    requires SliceOf(output).Success? && !Balanced(SliceOf(output).value)
    ensures ExtractInvoiceData(output, parse1) == ExtractInvoiceData(output, parse2) == Failed(IncompleteMessage)
    ensures ExtractInvoiceData(output, parse1).RawResponse() == None
  {
  }

  /** Without a '{' or without a '}' both paths fail the same way, whatever the
      parser does, and report no raw response. */
  lemma MissingBraceRejected(output: ModelOutput, parse: Parser)
    requires '{' !in Clean(ResponseText(output)) || '}' !in Clean(ResponseText(output))
    ensures ExtractInvoiceData(output, parse) == Failed(NoJsonMessage)
    ensures ExtractInvoiceDataFromText(output, parse) == Failed(NoJsonMessage)
    ensures ExtractInvoiceData(output, parse).RawResponse() == None
  {
  }

  /** The two paths differ only in the balance check: on a balanced slice they
      agree, and the text path hands an unbalanced slice to the parser, whose
      verdict alone decides. */
  lemma PathsDifferOnlyInBalance(output: ModelOutput, parse: Parser)
    requires SliceOf(output).Success?
    ensures Balanced(SliceOf(output).value) ==>
      ExtractInvoiceData(output, parse) == ExtractInvoiceDataFromText(output, parse)
    ensures !Balanced(SliceOf(output).value) ==>
      (ExtractInvoiceDataFromText(output, parse).Succeeded? <==> parse(SliceOf(output).value).Success?)
  {
  }

  /** The model's usual wrapping, prose around a ```json fence, is undone: the
      slice is exactly the object text inside the fence. */
  lemma {:induction false} FencedObjectRecovered(prefix: string, obj: string, suffix: string, block: string, text: string)
    requires |obj| > 0 && obj[0] == '{' && obj[|obj| - 1] == '}'
    requires !ContainsFence(obj)
    requires !ContainsFence(prefix) && !ContainsFence(suffix)
    requires '{' !in prefix && '}' !in prefix && '{' !in suffix && '}' !in suffix
    requires block == JsonFence + "\n" + obj + "\n" + Fence
    requires text == prefix + block + suffix
    ensures Locate(Clean(text)) == Success(obj)
  {
    FenceBlockSolid(obj, block);
    var p1, s1 := TrimFencedText(prefix, block, suffix, text);
    CleanTrimmed(p1, obj, s1, block, p1 + block + s1);
    CleanViaTrim(text, p1 + block + s1);
  }

  /** Clean applies its two replaces to the trimmed text. */
  lemma CleanViaTrim(text: string, trimmed: string)
    requires Trim(text) == trimmed
    ensures Clean(text) == RemoveAll(RemoveAll(trimmed, JsonFence, AnyWhitespace), Fence, AnyWhitespace)
  {
  }

  /** Trimming the text around a block that starts and ends with a backtick
      trims only the prose around it, which keeps its lack of fences and braces. */
  lemma TrimFencedText(prefix: string, block: string, suffix: string, text: string) returns (p1: string, s1: string)
    requires |block| > 0 && block[0] == '`' && block[|block| - 1] == '`'
    requires text == prefix + block + suffix
    requires !ContainsFence(prefix)
    requires '{' !in prefix && '{' !in suffix && '}' !in suffix
    ensures Trim(text) == p1 + block + s1
    ensures !ContainsFence(p1) && '{' !in p1 && '{' !in s1 && '}' !in s1
  {
    p1 := TrimStart(prefix);
    s1 := TrimEnd(suffix);
    TrimAroundSolid(prefix, block, suffix);
    SuffixNoFence(prefix, |prefix| - |p1|);
    TrimmedBraces(prefix, suffix);
  }

  /** Both replaces and the brace search, on the trimmed fenced text. */
  lemma CleanTrimmed(p1: string, obj: string, s1: string, m: string, trimmed: string)
    requires |obj| > 0 && obj[0] == '{' && obj[|obj| - 1] == '}'
    requires !ContainsFence(obj) && !ContainsFence(p1)
    requires '{' !in p1 && '{' !in s1 && '}' !in s1
    requires m == JsonFence + "\n" + obj + "\n" + Fence
    requires trimmed == p1 + m + s1
    ensures Locate(RemoveAll(RemoveAll(trimmed, JsonFence, AnyWhitespace), Fence, AnyWhitespace)) == Success(obj)
  {
    var x := FirstPass(p1, obj, s1, m, trimmed);
    var y := SecondPass(p1, obj, x);
    SliceOfCleaned(p1, obj, y);
  }

  /** A fenced block starts and ends with a backtick. */
  lemma FenceBlockSolid(obj: string, m: string)
    requires m == JsonFence + "\n" + obj + "\n" + Fence
    ensures |m| > 0 && m[0] == '`' && m[|m| - 1] == '`'
  {
    assert m[0] == JsonFence[0];
    assert m[|m| - 1] == Fence[2];
  }

  /** Trimming keeps no brace the untrimmed prose lacked. */
  lemma TrimmedBraces(prefix: string, suffix: string)
    requires '{' !in prefix && '{' !in suffix && '}' !in suffix
    ensures '{' !in TrimStart(prefix)
    ensures '{' !in TrimEnd(suffix) && '}' !in TrimEnd(suffix)
  {
    assert forall c :: c in TrimStart(prefix) ==> c in prefix;
    assert forall c :: c in TrimEnd(suffix) ==> c in suffix;
  }

  /** The first replace of FencedObjectRecovered, on the trimmed text. */
  lemma FirstPass(p1: string, obj: string, s1: string, m: string, trimmed: string) returns (x: string)
    requires |obj| > 0 && obj[0] == '{' && obj[|obj| - 1] == '}'
    requires !ContainsFence(obj) && !ContainsFence(p1)
    requires '{' !in s1 && '}' !in s1
    requires m == JsonFence + "\n" + obj + "\n" + Fence
    requires trimmed == p1 + m + s1
    ensures RemoveAll(trimmed, JsonFence, AnyWhitespace) == p1 + obj + "\n" + x
    ensures '{' !in x && '}' !in x
  {
    var rest0 := m + s1;
    assert trimmed == p1 + rest0;
    assert Fence <= rest0 by {
      assert rest0[..3] == m[..3] == JsonFence[..3];
    }
    FirstPassPrefix(p1, rest0);
    x := FirstPassFence(obj, s1, rest0);
    assert p1 + (obj + "\n" + x) == p1 + obj + "\n" + x;
  }

  lemma FirstPassPrefix(p1: string, rest0: string)
    requires !ContainsFence(p1) && Fence <= rest0
    ensures RemoveAll(p1 + rest0, JsonFence, AnyWhitespace) == p1 + RemoveAll(rest0, JsonFence, AnyWhitespace)
  {
    NoJsonFenceBeforeFence(p1, rest0);
    RemoveAllKeepsUnmatched(p1, rest0, JsonFence, AnyWhitespace);
  }

  lemma FirstPassFence(obj: string, s1: string, rest0: string) returns (x: string)
    requires |obj| > 0 && obj[0] == '{' && obj[|obj| - 1] == '}'
    requires !ContainsFence(obj)
    requires '{' !in s1 && '}' !in s1
    requires rest0 == JsonFence + "\n" + obj + "\n" + Fence + s1
    ensures RemoveAll(rest0, JsonFence, AnyWhitespace) == obj + "\n" + x
    ensures '{' !in x && '}' !in x
  {
    var a1 := obj + "\n";
    var b1 := Fence + s1;
    assert rest0 == JsonFence + "\n" + (a1 + b1);
    OpenJsonFence(a1 + b1, rest0);
    ObjectLineKept(obj, b1);
    x := RemoveAll(b1, JsonFence, AnyWhitespace);
    ClosingFenceBraceFree(s1, b1, x);
  }

  /** The closing fence and the brace-free prose after it stay brace-free. */
  lemma ClosingFenceBraceFree(s1: string, b1: string, x: string)
    requires '{' !in s1 && '}' !in s1
    requires b1 == Fence + s1
    requires x == RemoveAll(b1, JsonFence, AnyWhitespace)
    ensures '{' !in x && '}' !in x
  {
    assert '{' !in b1 && '}' !in b1 by {
      forall j | 0 <= j < |b1|
        ensures b1[j] != '{' && b1[j] != '}'
      {
        if j >= |Fence| {
          assert b1[j] == s1[j - |Fence|];
        }
      }
    }
    RemoveAllChars(b1, JsonFence, AnyWhitespace, '{');
    RemoveAllChars(b1, JsonFence, AnyWhitespace, '}');
  }

  lemma OpenJsonFence(t: string, s: string)
    requires |t| > 0 && !IsWhitespace(t[0])
    requires s == JsonFence + "\n" + t
    ensures RemoveAll(s, JsonFence, AnyWhitespace) == RemoveAll(t, JsonFence, AnyWhitespace)
  {
    OneNewline(t, AnyWhitespace);
    SkipMarker(JsonFence, "\n", t, AnyWhitespace);
  }

  lemma ObjectLineKept(obj: string, b1: string)
    requires |obj| > 0 && obj[|obj| - 1] == '}'
    requires !ContainsFence(obj)
    ensures RemoveAll(obj + "\n" + b1, JsonFence, AnyWhitespace) == obj + "\n" + RemoveAll(b1, JsonFence, AnyWhitespace)
  {
    ConcatNoFence(obj, "\n");
    NoMarkerInside(obj + "\n", b1, JsonFence);
    RemoveAllKeepsUnmatched(obj + "\n", b1, JsonFence, AnyWhitespace);
  }

  /** The second replace of FencedObjectRecovered. */
  lemma SecondPass(p1: string, obj: string, x: string) returns (y: string)
    requires |obj| > 0 && obj[0] == '{' && obj[|obj| - 1] == '}'
    requires !ContainsFence(obj) && !ContainsFence(p1)
    requires '{' !in x && '}' !in x
    ensures RemoveAll(p1 + obj + "\n" + x, Fence, AnyWhitespace) == p1 + obj + "\n" + y
    ensures '{' !in y && '}' !in y
  {
    var a2 := p1 + obj + "\n";
    ConcatNoFence(obj, "\n");
    ConcatNoFence(p1, obj + "\n");
    assert a2 == p1 + (obj + "\n");
    NoMarkerInside(a2, x, Fence);
    RemoveAllKeepsUnmatched(a2, x, Fence, AnyWhitespace);
    y := RemoveAll(x, Fence, AnyWhitespace);
    RemoveAllChars(x, Fence, AnyWhitespace, '{');
    RemoveAllChars(x, Fence, AnyWhitespace, '}');
  }

  /** Locating the object in the cleaned text of FencedObjectRecovered. */
  lemma SliceOfCleaned(p1: string, obj: string, y: string)
    requires |obj| > 0 && obj[0] == '{' && obj[|obj| - 1] == '}'
    requires '{' !in p1 && '}' !in y
    ensures Locate(p1 + obj + "\n" + y) == Success(obj)
  {
    var cleaned := p1 + obj + "\n" + y;
    var end := |p1| + |obj| - 1;
    assert IndexOf(cleaned, '{') == |p1| by {
      forall j | 0 <= j < |p1|
        ensures cleaned[j] != '{'
      {
        assert cleaned[j] == p1[j];
      }
      IndexOfIs(cleaned, '{', |p1|);
    }
    assert LastIndexOf(cleaned, '}') == end by {
      forall j | end < j < |cleaned|
        ensures cleaned[j] != '}'
      {
        if j > end + 1 {
          assert cleaned[j] == y[j - end - 2];
        }
      }
      LastIndexOfIs(cleaned, '}', end);
    }
    assert Substring(cleaned, |p1|, end + 1) == obj by {
      assert cleaned[|p1|..end + 1] == obj;
    }
  }

  /** A text without backticks has no fence. */
  lemma NoTickNoFence(s: string)
    requires '`' !in s
    ensures !ContainsFence(s)
  {
    forall i | 0 <= i <= |s|
      ensures !FenceAt(s, i)
    {
      if i < |s| {
        assert s[i..][0] == s[i];
      }
    }
  }

  /** The missing-brace guard lets through text whose only braces are a '}'
      before a '{': `substring` swaps its arguments and hands the brace-free text
      between them to `JSON.parse`, so a bare number or word there can come
      back as success. */
  lemma ReversedBracesReachParser(inner: string, parse: Parser)
    requires '{' !in inner && '}' !in inner && '[' !in inner && ']' !in inner && '`' !in inner
    ensures SliceOf(Single("}" + inner + "{")) == Success(inner)
    ensures ExtractInvoiceData(Single("}" + inner + "{"), parse) == ParseEnvelope(parse, inner, "}" + inner + "{")
  {
    var t := "}" + inner + "{";
    CleanWithoutTicks(t);
    ReversedLocate(inner);
    assert SliceOf(Single(t)) == Success(inner);
    NoBracketsBalanced(inner);
  }

  /** Text without braces or brackets passes the balance check. */
  lemma NoBracketsBalanced(s: string)
    requires '{' !in s && '}' !in s && '[' !in s && ']' !in s
    ensures Balanced(s)
  {
    assert multiset(s)['{'] == 0 && multiset(s)['}'] == 0;
    assert multiset(s)['['] == 0 && multiset(s)[']'] == 0;
  }

  /** Cleaning leaves a backtick-free text that starts and ends with a
      non-blank character as it is. */
  lemma CleanWithoutTicks(t: string)
    requires |t| > 0 && !IsWhitespace(t[0]) && !IsWhitespace(t[|t| - 1])
    requires '`' !in t
    ensures Clean(t) == t
  {
    assert Trim(t) == t by {
      TrimAroundSolid("", t, "");
      assert "" + t + "" == t;
    }
    NoTickNoFence(t);
    RemoveAllIdentity(t, JsonFence, AnyWhitespace);
    RemoveAllIdentity(t, Fence, AnyWhitespace);
  }

  /** Locate on "}" + inner + "{" cuts out inner. */
  lemma ReversedLocate(inner: string)
    requires '{' !in inner && '}' !in inner
    ensures Locate("}" + inner + "{") == Success(inner)
  {
    var t := "}" + inner + "{";
    assert IndexOf(t, '{') == |t| - 1 by {
      forall j | 0 <= j < |t| - 1
        ensures t[j] != '{'
      {
        if j > 0 {
          assert t[j] == inner[j - 1];
        }
      }
      IndexOfIs(t, '{', |t| - 1);
    }
    assert LastIndexOf(t, '}') == 0 by {
      forall j | 0 < j < |t|
        ensures t[j] != '}'
      {
        if j < |t| - 1 {
          assert t[j] == inner[j - 1];
        }
      }
      LastIndexOfIs(t, '}', 0);
    }
    assert t[1..|t| - 1] == inner;
  }
}
