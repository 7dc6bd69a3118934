/** The response handling of services/geminiService.js `extractInvoiceData`:
    trim, strip the code fence only when the reply starts with one, then hand
    the rest to `JSON.parse`. */
module GeminiNormalizer {
  import opened JsText
  import opened Fences
  import opened Extraction

  // The cleaning branch: when the trimmed reply starts with ```json, the global
  // replaces of ```json\n? and then of ```\n? by ''; when it starts with a bare
  // ```, only the second replace; otherwise the text is left alone.
  function Clean(trimmed: string): (r: string)
    ensures |r| <= |trimmed|
    ensures Fence <= trimmed ==> !ContainsFence(r)
    ensures !(Fence <= trimmed) ==> r == trimmed
  {
    if JsonFence <= trimmed then
      var once := RemoveAll(trimmed, JsonFence, OptionalNewline);
      NoFenceLeft(once, OptionalNewline);
      RemoveAll(once, Fence, OptionalNewline)
    else if Fence <= trimmed then
      NoFenceLeft(trimmed, OptionalNewline);
      RemoveAll(trimmed, Fence, OptionalNewline)
    else trimmed
  }

  /** The text `JSON.parse` receives for the model's reply. */
  function Payload(text: string): (r: string)
    ensures Fence <= Trim(text) ==> !ContainsFence(r)
    ensures !(Fence <= Trim(text)) ==> r == Trim(text)
  {
    Clean(Trim(text))
  }

  /** `extractInvoiceData` after the model call: the envelope carries the parsed
      payload and the untouched reply, or the parser's error message. */
  function ExtractInvoiceData(text: string, parse: Parser): (e: Envelope)
    ensures e.Succeeded? <==> parse(Payload(text)).Success?
    ensures e.Succeeded? ==> e.data == parse(Payload(text)).value && e.rawResponse == text
    ensures e.Failed? ==> e.error == parse(Payload(text)).error
  {
    ParseEnvelope(parse, Payload(text), text)
  }

  /** A reply wrapped in a ```json fence, with only blank space around it,
      reaches the parser as the fenced text followed by the newline that
      preceded the closing fence. */
  lemma JsonFencedReply(pre: string, body: string, post: string, block: string, text: string, parse: Parser)
    requires AllWhitespace(pre) && AllWhitespace(post)
    requires !ContainsFence(body)
    requires block == JsonFence + "\n" + body + "\n" + Fence
    requires text == pre + block + post
    ensures Payload(text) == body + "\n"
    ensures ExtractInvoiceData(text, parse) == ParseEnvelope(parse, body + "\n", text)
  {
    FenceBlockTicks(JsonFence, body, block);
    BlankAround(pre, block, post, text);
    JsonFenceCleaned(body, block);
  }

  /** The same for a bare ``` fence without an info string. */
  lemma BareFencedReply(pre: string, body: string, post: string, block: string, text: string, parse: Parser)
    requires AllWhitespace(pre) && AllWhitespace(post)
    requires !ContainsFence(body)
    requires block == Fence + "\n" + body + "\n" + Fence
    requires text == pre + block + post
    ensures Payload(text) == body + "\n"
    ensures ExtractInvoiceData(text, parse) == ParseEnvelope(parse, body + "\n", text)
  {
    FenceBlockTicks(Fence, body, block);
    BlankAround(pre, block, post, text);
    BareFenceCleaned(body, block);
  }

  /** A reply whose trimmed text does not start with a fence (prose before the
      JSON, say, or a lone backtick) reaches the parser only trimmed: any fence
      later in it stays. */
  lemma UnfencedReplyOnlyTrimmed(text: string, parse: Parser)
    requires !(Fence <= Trim(text))
    ensures Payload(text) == Trim(text)
    ensures ExtractInvoiceData(text, parse) == ParseEnvelope(parse, Trim(text), text)
  {
  }

  /** Cleaning a trimmed payload again changes nothing: the cleaned text holds
      no fence left to strip. */
  lemma CleanIdempotent(trimmed: string)
    ensures Fence <= trimmed ==> Clean(Clean(trimmed)) == Clean(trimmed)
  {
    if Fence <= trimmed {
      var r := Clean(trimmed);
      if Fence <= r {
        assert FenceAt(r, 0);
      }
    }
  }

  /** Both fence shapes start and end with a backtick. */
  lemma FenceBlockTicks(opening: string, body: string, block: string)
    requires Fence <= opening
    requires block == opening + "\n" + body + "\n" + Fence
    ensures |block| > 0 && block[0] == '`' && block[|block| - 1] == '`'
  {
    assert block[0] == opening[0];
    assert block[|block| - 1] == Fence[2];
  }

  /** Blank space around a block that starts and ends with a backtick trims away. */
  lemma BlankAround(pre: string, block: string, post: string, text: string)
    requires AllWhitespace(pre) && AllWhitespace(post)
    requires |block| > 0 && block[0] == '`' && block[|block| - 1] == '`'
    requires text == pre + block + post
    ensures Trim(text) == block
  {
    TrimAroundSolid(pre, block, post);
    BlankTrimsAway(pre);
    BlankTrimsAway(post);
    assert "" + block + "" == block;
  }

  lemma JsonFenceCleaned(body: string, block: string)
    requires !ContainsFence(body)
    requires block == JsonFence + "\n" + body + "\n" + Fence
    ensures Clean(block) == body + "\n"
  {
    var line := body + "\n";
    assert JsonFence <= block;
    var once := RemoveAll(block, JsonFence, OptionalNewline);
    assert once == line + Fence by {
      assert block == JsonFence + "\n" + (line + Fence);
      NewlineConsumed(line + Fence);
      SkipMarker(JsonFence, "\n", line + Fence, OptionalNewline);
      LineKept(body, JsonFence);
      ShortFenceKept(JsonFence);
    }
    LineKept(body, Fence);
    FenceDropped();
  }

  lemma BareFenceCleaned(body: string, block: string)
    requires !ContainsFence(body)
    requires block == Fence + "\n" + body + "\n" + Fence
    ensures Clean(block) == body + "\n"
  {
    var line := body + "\n";
    assert !(JsonFence <= block) by {
      assert block[3] == '\n';
    }
    assert Fence <= block;
    assert block == Fence + "\n" + (line + Fence);
    NewlineConsumed(line + Fence);
    SkipMarker(Fence, "\n", line + Fence, OptionalNewline);
    LineKept(body, Fence);
    FenceDropped();
  }

  /** `\n?` after the marker takes exactly one line feed when there is one. */
  lemma NewlineConsumed(t: string)
    ensures TailLength("\n" + t, OptionalNewline) == 1
  {
    assert ("\n" + t)[0] == '\n';
  }

  /** A fence-free line and its line feed pass through either replace. */
  lemma LineKept(body: string, marker: string)
    requires Fence <= marker
    requires !ContainsFence(body)
    ensures RemoveAll(body + "\n" + Fence, marker, OptionalNewline) == body + "\n" + RemoveAll(Fence, marker, OptionalNewline)
  {
    ConcatNoFence(body, "\n");
    NoMarkerInside(body + "\n", Fence, marker);
    RemoveAllKeepsUnmatched(body + "\n", Fence, marker, OptionalNewline);
  }

  /** The closing fence is too short to match ```json. */
  lemma ShortFenceKept(marker: string)
    requires marker == JsonFence
    ensures RemoveAll(Fence, marker, OptionalNewline) == Fence
  {
    assert Fence + "" == Fence;
    RemoveAllKeepsUnmatched(Fence, "", marker, OptionalNewline);
  }

  /** The closing fence alone is removed by the ```\n? replace. */
  lemma FenceDropped()
    ensures RemoveAll(Fence, Fence, OptionalNewline) == ""
  {
    assert Fence + "" + "" == Fence;
    SkipMarker(Fence, "", "", OptionalNewline);
  }
}
